/**
 The redirect, retry and deadline loop of the HTTP client's `get`, with its conditional-request
 cache.  Servers, the resolver, the rate limiter and the clock may do anything; URL syntax and
 header syntax are parameters (`Syntax`).  What the origin servers hold is a `World`; a server
 may answer 304 only when the validators that were sent match what it holds (sections 13.1.2
 and 15.4.5 of RFC 9110).  Time is a real number of seconds.
 */
module SafeHttpGet {
  import opened Basics

  type Bytes = seq<byte>

  datatype Failure =
    | NetworkDisabled
    | PolicyError
    | InvalidHeader         // a policy error of its own text
    | TimeoutError
    | RedirectError
    | InvalidNotModified
    | ResponseTooLarge
    | RetryExhausted

  datatype Result<+T> = Ok(value: T) | Err(failure: Failure)

  datatype Validators = Validators(etag: Option<string>, lastModified: Option<string>)
  const NO_VALIDATORS := Validators(None, None)

  /** What an origin holds under a URL at some time. */
  datatype Representation = Representation(body: Bytes, contentType: Option<string>, validators: Validators)

  datatype World = World(rep: (string, real) -> Representation)

  datatype Request = Request(url: string, accept: string, headers: map<string, string>)

  /** The headers of one call: the caller's own and the two conditional ones. */
  datatype Headers = Headers(custom: map<string, string>, conditional: Validators)

  datatype HttpResult = HttpResult(status: int, body: Bytes, url: string, attempts: nat, validators: Validators)

  datatype Response = Response(
    status: int,
    location: Option<string>,       // when it is there and not empty
    retryAfter: Option<real>,       // when it parses as a finite number
    declaredLength: Option<int>,    // when it parses as a number
    conditional: bool,              // whether the server heeds the validators of a request
    rep: Representation)

  datatype Syntax = Syntax(
    /** The host of a URL that passes every check but the allowlist. */
    host: string -> Option<string>,
    origin: string -> Option<(string, int)>,
    join: (string, string) -> Option<string>,
    sensitive: string -> bool,
    protected: string -> bool,
    nameOk: string -> bool,
    valueOk: string -> bool,
    key: (string, string) -> string)

  datatype Policy = Policy(
    enabled: bool,
    identified: bool,
    allowedHosts: set<string>,
    totalTimeout: real,
    baseDelay: real,
    maxBytes: nat,
    maxRedirects: nat,
    maxAttempts: nat,
    retryable: set<int>)
  {
    predicate Valid() {
      totalTimeout > 0.0 && baseDelay > 0.0 && 1 <= maxBytes && maxRedirects <= 5 && 1 <= maxAttempts <= 3
    }
  }

  datatype Fault = TransportTimeout | NetworkFault | OtherHttpFault

  /**
     What a call did, and what it was answered.  A request is handed over to the worker thread at one time
     and opened there at a later one, or never.
   */
  datatype Event =
    | Sent(url: string, host: string, headers: Headers, handed: real, opening: Option<real>)
    | Got(status: int, location: Option<string>, retryAfter: Option<real>, declared: Option<int>, size: nat)   // a response, looked at in time
    | Redirected(source: string, target: string)
    | BrokeOff(fault: Fault)           // the transport failed, at the latest when the response was closed
    | Slept(seconds: real, at: real)
    | Full(url: string, at: real)   // a 2xx response read to its end

  function Seen(response: Response): Event {
    Got(response.status, response.location, response.retryAfter, response.declaredLength, |response.rep.body|)
  }

  const REDIRECTS := {301, 302, 303, 307, 308}

  predicate Success(status: int) { 200 <= status < 300 }

  /** The precondition a server evaluates: an entity tag takes precedence over a date. */
  predicate Matches(sent: Validators, held: Validators) {
    if sent.etag.Some? then sent.etag == held.etag
    else sent.lastModified.Some? && sent.lastModified == held.lastModified
  }

  function Without(headers: map<string, string>, drop: string -> bool): map<string, string> {
    map n | n in headers && !drop(n) :: headers[n]
  }

  // --- what a log says ---

  /** From where and when a cached entry was stored. */
  datatype Source = Source(url: string, at: real)

  /** The state of a call after the events so far. */
  datatype Trace = Trace(
    url: string,                // where the redirects have led
    redirects: nat,
    requests: nat,
    crossed: bool,              // some redirect changed the origin
    late: bool,                 // some request was opened at or after the deadline
    request: Option<Event>,     // the latest request
    tries: nat,                 // requests since the latest redirect that did not break off
    since: seq<Event>,          // what has happened since the latest request
    stored: Option<Source>)     // the latest complete 2xx response

  predicate OpenedLate(e: Event, deadline: real) { e.Sent? && e.opening.Some? && e.opening.value >= deadline }

  function Last(t: Trace): Option<Event> { if t.since == [] then None else Some(t.since[|t.since| - 1]) }

  /** The requests that count against the limit of tries: a redirect starts anew, unless it broke off. */
  function Tried(t: Trace): nat { if Last(t).Some? && Last(t).value.Redirected? then 0 else t.tries }

  function Next(syntax: Syntax, deadline: real, t: Trace, e: Event): Trace {
    if e.Sent? then
      t.(requests := t.requests + 1, request := Some(e), late := t.late || OpenedLate(e, deadline), tries := Tried(t) + 1, since := [])
    else
      var u := t.(since := t.since + [e]);
      match e
      case Redirected(source, target) =>
        u.(url := target, redirects := t.redirects + 1, crossed := t.crossed || syntax.origin(target) != syntax.origin(source))
      case Full(url, at) => u.(stored := Some(Source(url, at)))
      case _ => u
  }

  function Begun(start: string): Trace { Trace(start, 0, 0, false, false, None, 0, [], None) }

  function Follow(syntax: Syntax, deadline: real, start: string, log: seq<Event>): Trace {
    if log == [] then Begun(start)
    else Next(syntax, deadline, Follow(syntax, deadline, start, log[..|log| - 1]), log[|log| - 1])
  }

  /** The caller's headers lose the sensitive ones at the first change of origin. */
  function HeadersNow(syntax: Syntax, first: Headers, crossed: bool): Headers {
    if crossed then first.(custom := Without(first.custom, syntax.sensitive)) else first
  }

  /** A status that ends the call with its body. */
  predicate Plain(policy: Policy, status: int) { status !in REDIRECTS && status != 304 && status !in policy.retryable }

  /** A status that asks for another try. */
  predicate AsksAgain(policy: Policy, status: int) { status !in REDIRECTS && status != 304 && status in policy.retryable }

  /** The latest request is to be repeated. */
  predicate Retry(policy: Policy, t: Trace) {
    && 0 < t.tries < policy.maxAttempts
    && (match Last(t)
        case Some(Got(status, _, _, _, _)) => AsksAgain(policy, status)
        case Some(BrokeOff(fault)) => fault != OtherHttpFault
        case _ => false)
  }

  /** How long to sleep before that: doubling, or what the server asks for, within the time that is left. */
  function Pause(policy: Policy, t: Trace, left: real): real
    requires t.tries > 0
  {
    var again := policy.baseDelay * Pow2(t.tries - 1);
    match Last(t)
    case Some(Got(_, _, Some(asked), _, _)) => if 0.0 <= asked <= left then asked else if again < left then again else left
    case _ => if again < left then again else left
  }

  /** A request is the first one, or it follows a redirect or a sleep; only for "retry after 0" there is no sleep. */
  predicate MaySend(policy: Policy, t: Trace) {
    (t.requests == 0 && t.since == []) ||
    match Last(t)
    case Some(Redirected(_, _)) => true
    case Some(Slept(_, _)) => true
    case Some(Got(_, _, retryAfter, _, _)) => Retry(policy, t) && retryAfter == Some(0.0)
    case _ => false
  }

  predicate Unbroken(t: Trace) { t.requests > 0 && (Last(t).Some? ==> !Last(t).value.Slept? && !Last(t).value.BrokeOff?) }

  /** What an event must respect given the state before it; nothing follows a request opened late but its failure. */
  predicate Permitted(policy: Policy, syntax: Syntax, first: Headers, deadline: real, before: Trace, e: Event) {
    && (before.late ==> e.BrokeOff?)
    && match e
       case Sent(url, host, headers, handed, opening) =>
         && handed < deadline && (opening.Some? ==> handed <= opening.value)
         && host in policy.allowedHosts && syntax.host(url) == Some(host)
         && url == before.url && headers == HeadersNow(syntax, first, before.crossed)
         && MaySend(policy, before)
       case Got(_, _, _, _, _) => before.requests > 0 && before.since == []
       case Redirected(source, target) =>
         && source == before.url && before.redirects < policy.maxRedirects
         && Last(before).Some? && Last(before).value.Got? && Last(before).value.status in REDIRECTS
         && Last(before).value.location.Some? && syntax.join(source, Last(before).value.location.value) == Some(target)
       case BrokeOff(_) => Unbroken(before)
       case Slept(seconds, at) =>
         && 0.0 < seconds && at + seconds <= deadline
         && Retry(policy, before) && seconds == Pause(policy, before, deadline - at)
       case Full(url, _) =>
         && url == before.url
         && Last(before).Some? && Last(before).value.Got? && Success(Last(before).value.status) && Plain(policy, Last(before).value.status)
  }

  /** Neither the length that the server declares nor the body itself is over the limit. */
  predicate Fits(policy: Policy, declared: Option<int>, size: nat) {
    (declared.Some? ==> declared.value <= policy.maxBytes) && size <= policy.maxBytes
  }

  /** Why a call fails; `over` says that the deadline has come. */
  predicate FailedFor(policy: Policy, syntax: Syntax, known: bool, t: Trace, f: Failure, over: bool) {
    match f
    case RetryExhausted =>
      (match Last(t)
       case Some(Got(status, _, _, _, _)) => AsksAgain(policy, status)
       case Some(BrokeOff(fault)) => fault == NetworkFault
       case _ => false)
      && t.tries == policy.maxAttempts
    case RedirectError =>
      (match Last(t)
       case Some(Got(status, location, _, _, _)) =>
         status in REDIRECTS && (location.None? || t.redirects >= policy.maxRedirects || syntax.join(t.url, location.value).None?)
       case _ => false)
      || (t.redirects > 0 && (MaySend(policy, t) || over))
    case InvalidNotModified => !known && Last(t).Some? && Last(t).value.Got? && Last(t).value.status == 304
    case ResponseTooLarge =>
      && Last(t).Some? && Last(t).value.Got? && Plain(policy, Last(t).value.status)
      && !Fits(policy, Last(t).value.declared, Last(t).value.size)
    case PolicyError => MaySend(policy, t) || over || Last(t) == Some(BrokeOff(OtherHttpFault))
    case TimeoutError =>
      || over || MaySend(policy, t) || t.since == []
      || (Last(t).value.Got? && Plain(policy, Last(t).value.status))
      || (Last(t).value == BrokeOff(TransportTimeout) && t.tries == policy.maxAttempts)
    case _ => t.requests == 0 && t.since == []
  }

  /** What a call was answered when it succeeds. */
  predicate SucceedsFor(policy: Policy, known: bool, t: Trace, r: HttpResult) {
    && t.since != [] && t.since[0].Got? && t.since[0].status == r.status
    && if r.status == 304 then known && |t.since| == 1
       else Plain(policy, r.status) && Fits(policy, t.since[0].declared, t.since[0].size) && |r.body| == t.since[0].size
            && if Success(r.status) then |t.since| == 2 && t.since[1].Full? else |t.since| == 1
  }

  predicate EndsFor(policy: Policy, syntax: Syntax, known: bool, t: Trace, r: Result<HttpResult>, over: bool) {
    match r
    case Ok(answer) => SucceedsFor(policy, known, t, answer)
    case Err(f) => FailedFor(policy, syntax, known, t, f, over)
  }

  predicate Lawful(policy: Policy, syntax: Syntax, first: Headers, deadline: real, start: string, log: seq<Event>) {
    log == [] ||
    (Lawful(policy, syntax, first, deadline, start, log[..|log| - 1])
     && Permitted(policy, syntax, first, deadline, Follow(syntax, deadline, start, log[..|log| - 1]), log[|log| - 1]))
  }

  /** The cache after a call: its last complete 2xx response, if there was one. */
  ghost function CacheAfter(world: World, cache: map<string, Representation>, key: string, stored: Option<Source>): map<string, Representation> {
    if stored.None? then cache else cache[key := world.rep(stored.value.url, stored.value.at)]
  }

  function SourcesAfter(sources: map<string, Source>, key: string, stored: Option<Source>): map<string, Source> {
    if stored.None? then sources else sources[key := stored.value]
  }

  /** What is stored has passed the size limit. */
  predicate StoredFits(policy: Policy, world: World, stored: Option<Source>) {
    stored.Some? ==> |world.rep(stored.value.url, stored.value.at).body| <= policy.maxBytes
  }

  function Pow2(n: nat): real { if n == 0 then 1.0 else 2.0 * Pow2(n - 1) }

  lemma {:induction false} BackoffGrows(base: real, n: nat)
    requires base > 0.0
    ensures base * Pow2(n) > 0.0
  {
    if n > 0 {
      BackoffGrows(base, n - 1);
      assert base * Pow2(n) == 2.0 * (base * Pow2(n - 1));
    }
  }

  // --- the client ---

  datatype Limited = Late | Broke | Done
  datatype Exchange = Moved | Answered(result: HttpResult) | Failed(failure: Failure) | Again(retryAfter: Option<real>) | Faulted(fault: Fault)

  /** What the log must show for an exchange to come out as it did. */
  predicate Explains(policy: Policy, syntax: Syntax, known: bool, t: Trace, e: Exchange, over: bool) {
    match e
    case Moved => Last(t).Some? && Last(t).value.Redirected?
    case Answered(r) => SucceedsFor(policy, known, t, r)
    case Failed(f) => FailedFor(policy, syntax, known, t, f, over)
    case Again(retryAfter) => Retry(policy, t) && Last(t).value.Got? && Last(t).value.retryAfter == retryAfter
    case Faulted(_) => Unbroken(t)
  }

  lemma ExplainedEnds(policy: Policy, syntax: Syntax, known: bool, t: Trace, e: Exchange, over: bool)
    requires Explains(policy, syntax, known, t, e, over)
    ensures e.Answered? ==> EndsFor(policy, syntax, known, t, Ok(e.result), over)
    ensures e.Failed? ==> EndsFor(policy, syntax, known, t, Err(e.failure), over)
  {
  }

  /** What a response that asks for another try leads to. */
  lemma GotExplains(policy: Policy, syntax: Syntax, known: bool, t: Trace, got: Event, over: bool)
    requires got.Got? && t.since == [got] && t.requests > 0 && 0 < t.tries <= policy.maxAttempts
    ensures Unbroken(t)
    ensures AsksAgain(policy, got.status) ==>
      Explains(policy, syntax, known, t, if t.tries == policy.maxAttempts then Failed(RetryExhausted) else Again(got.retryAfter), over)
  {
  }

  /** A call may fail between two requests, and whenever its deadline has come. */
  lemma MayFailBetween(policy: Policy, syntax: Syntax, known: bool, t: Trace, f: Failure, over: bool)
    requires MaySend(policy, t) || over || (f == TimeoutError && t.since == [])
    requires f == TimeoutError || f == PolicyError || (f == RedirectError && t.redirects > 0)
    ensures Explains(policy, syntax, known, t, Failed(f), over) && EndsFor(policy, syntax, known, t, Err(f), over)
  {
  }

  /** How a call ends: its result, how many requests have been served, and the time. */
  datatype Ending = Ending(result: Result<HttpResult>, served: nat, now: real)

  /** The variables of the two loops. */
  datatype Cursor = Cursor(url: string, headers: Headers, attempts: nat, redirects: nat, tries: nat)

  /** What is fixed during one call of `get`. */
  datatype CallInfo = CallInfo(
    start: string,
    first: Headers,
    deadline: real,
    key: string,
    cache: map<string, Representation>,
    sources: map<string, Source>)

  class SafeHttpClient {
    const policy: Policy
    const syntax: Syntax
    const world: World
    /** With a script no time passes by itself, nothing outside fails, and the n-th request gets the n-th response. */
    const script: Option<nat -> Response>
    var now: real
    var served: nat
    var cache: map<string, Representation>
    ghost var sources: map<string, Source>
    ghost var call: CallInfo
    ghost var log: seq<Event>

    ghost function State(): Trace
      reads this`call, this`log
    {
      Follow(syntax, call.deadline, call.start, log)
    }

    /** The events of the current call are in order, and its stores are those in the log. */
    ghost predicate InOrder()
      reads this`call, this`log, this`cache, this`sources
    {
      && Lawful(policy, syntax, call.first, call.deadline, call.start, log)
      && cache == CacheAfter(world, call.cache, call.key, State().stored)
      && sources == SourcesAfter(call.sources, call.key, State().stored)
      && StoredFits(policy, world, State().stored)
    }

    /** A request that was opened late is noticed: the clock has passed the deadline. */
    ghost predicate OnTime()
      reads this`call, this`log, this`now
    {
      State().late ==> now >= call.deadline
    }

    constructor (policy: Policy, syntax: Syntax, world: World, script: Option<nat -> Response>)
      requires policy.Valid()
      ensures this.policy == policy && this.syntax == syntax && this.world == world && this.script == script
      ensures cache == map[] && sources == map[] && served == 0 && now == 0.0
    {
      this.policy, this.syntax, this.world, this.script := policy, syntax, world, script;
      now, served, cache, sources, log := 0.0, 0, map[], map[], [];
      call := CallInfo("", Headers(map[], NO_VALIDATORS), 0.0, "", map[], map[]);
    }

    /** Forget every cached entry. */
    method Clear()
      modifies this`cache, this`sources
      ensures cache == map[] && sources == map[]
    {
      cache, sources := map[], map[];
    }

    /** Time passes, by any amount. */
    method Clock() returns (t: real)
      modifies this`now
      ensures t == now >= old(now)
      ensures script.Some? ==> now == old(now)
    {
      var d: real := *;
      if d > 0.0 && script.None? {
        now := now + d;
      }
      t := now;
    }

    ghost method Note(e: Event)
      requires InOrder() && !e.Full? && Permitted(policy, syntax, call.first, call.deadline, State(), e)
      modifies this`log
      ensures InOrder() && log == old(log) + [e] && State() == Next(syntax, call.deadline, old(State()), e)
    {
      hide CacheAfter, SourcesAfter, StoredFits;
      log := log + [e];
      assert log[..|log| - 1] == old(log);
    }

    /** `cache.put` of a complete 2xx response. */
    method Put(key: string, rep: Representation, ghost url: string, ghost at: real)
      requires InOrder() && key == call.key && rep == world.rep(url, at) && |rep.body| <= policy.maxBytes
      requires Permitted(policy, syntax, call.first, call.deadline, State(), Full(url, at))
      modifies this`log, this`cache, this`sources
      ensures InOrder() && log == old(log) + [Full(url, at)]
      ensures State() == old(State()).(stored := Some(Source(url, at)), since := old(State()).since + [Full(url, at)])
      ensures cache == old(cache)[key := rep] && sources == old(sources)[key := Source(url, at)]
    {
      Overwritten(world, call.cache, call.sources, key, State().stored, Source(url, at));
      cache, sources := cache[key := rep], sources[key := Source(url, at)];
      log := log + [Full(url, at)];
      assert log[..|log| - 1] == old(log);
    }

    /** A blocking step with a deadline: the resolver, the rate limiter, the next chunk. */
    method WithDeadline(deadline: real) returns (o: Limited)
      modifies this`now
      ensures now >= old(now)
      ensures script.Some? ==> now == old(now) && (old(now) < deadline ==> o == Done)
    {
      var t := Clock();
      if t >= deadline {
        return Late;
      }
      o := *;
      if script.Some? {
        o := Done;
      }
      if o == Done {
        t := Clock();
        if t >= deadline {
          o := Late;
        }
      }
    }

    method SomeFault() returns (f: Fault)
    {
      f := *;
    }

    predicate Reachable(url: string) { syntax.host(url).Some? && syntax.host(url).value in policy.allowedHosts }

    /** The validated target of a URL. */
    method Validate(url: string, deadline: real) returns (r: Result<string>)
      modifies this`now
      ensures now >= old(now)
      ensures r.Ok? ==> r.value in policy.allowedHosts && syntax.host(url) == Some(r.value)
      ensures r.Err? ==> r.failure == PolicyError || r.failure == TimeoutError
      ensures script.Some? ==> now == old(now)
      ensures script.Some? && old(now) < deadline ==> r == if Reachable(url) then Ok(syntax.host(url).value) else Err(PolicyError)
    {
      var host := syntax.host(url);
      if host.None? || host.value !in policy.allowedHosts {
        return Err(PolicyError);
      }
      var resolved := WithDeadline(deadline);
      if resolved != Done {
        return Err(if resolved == Late then TimeoutError else PolicyError);
      }
      var global: bool := *;      // at least one address, and only global ones
      r := if global || script.Some? then Ok(host.value) else Err(PolicyError);
    }

    /** What an origin may say instead: 304 only for matching validators, 2xx with what it holds. */
    function Honestly(url: string, sent: Validators, at: real, r: Response): Response {
      if Success(r.status) then
        if r.conditional && Matches(sent, world.rep(url, at).validators) then r.(status := 304) else r.(rep := world.rep(url, at))
      else if r.status == 304 && !Matches(sent, world.rep(url, at).validators) then r.(status := 500)
      else r
    }

    method Serve(url: string, sent: Validators) returns (r: Response, at: real)
      modifies this`now, this`served
      ensures at == now >= old(now)
      ensures r.status == 304 ==> Matches(sent, world.rep(url, at).validators)
      ensures Success(r.status) ==> r.rep == world.rep(url, at)
      ensures script.Some? ==> now == old(now) && served == old(served) + 1
      ensures script.Some? ==> r == Honestly(url, sent, now, script.value(old(served)))
    {
      at := Clock();
      r := *;
      if script.Some? {
        r := script.value(served);
        served := served + 1;
      }
      r := Honestly(url, sent, at, r);
    }

    /** The streamed body, in chunks of any size, up to the byte cap. */
    method ReadBody(body: Bytes, deadline: real) returns (r: Exchange, read: Bytes)
      modifies this`now
      ensures now >= old(now)
      ensures r == Moved ==> read == body && |body| <= policy.maxBytes
      ensures r != Moved ==> r == Failed(TimeoutError) || (r == Failed(ResponseTooLarge) && |body| > policy.maxBytes) || r.Faulted?
      ensures script.Some? ==> now == old(now)
      ensures script.Some? && old(now) < deadline ==> r == if |body| <= policy.maxBytes then Moved else Failed(ResponseTooLarge)
    {
      read := [];
      while true
        invariant now >= old(now) && (script.Some? ==> now == old(now))
        invariant read <= body && |read| <= policy.maxBytes
        decreases |body| - |read|
      {
        var next := WithDeadline(deadline);
        if next == Late {
          return Failed(TimeoutError), read;
        }
        if next == Broke {
          var f := SomeFault();
          return Faulted(f), read;
        }
        if |read| == |body| {
          return Moved, read;
        }
        var size: nat := *;
        if size < 1 || size > |body| - |read| {
          size := |body| - |read|;
        }
        read := read + body[|read|..|read| + size];
        if |read| > policy.maxBytes {
          return Failed(ResponseTooLarge), read;
        }
      }
    }

    /** What an answer may be: the cached body on a 304, what the origin holds on a 2xx. */
    ghost predicate AnswerOk(r: HttpResult, cached: Option<Representation>, at: real)
      reads this`cache, this`sources, this`call, this`log
    {
      && Truthful(policy, world, State(), call.first, cached, r, at)
      && (Success(r.status) ==>
            && call.key in cache && cache[call.key] == world.rep(r.url, at)
            && call.key in sources && sources[call.key] == Source(r.url, at))
    }

    /** What a response means when nothing goes wrong. */
    function Decided(response: Response, url: string, cached: Option<Representation>, attempts: nat, redirects: nat, lastTry: bool): Exchange {
      if response.status in REDIRECTS then
        if response.location.None? || redirects >= policy.maxRedirects || syntax.join(url, response.location.value).None?
        then Failed(RedirectError) else Moved
      else if response.status == 304 then
        if cached.None? then Failed(InvalidNotModified)
        else Answered(HttpResult(304, cached.value.body, url, attempts, cached.value.validators))
      else if response.status in policy.retryable then
        if lastTry then Failed(RetryExhausted) else Again(response.retryAfter)
      else if (response.declaredLength.Some? && response.declaredLength.value > policy.maxBytes) || |response.rep.body| > policy.maxBytes
      then Failed(ResponseTooLarge)
      else Answered(HttpResult(response.status, response.rep.body, url, attempts, response.rep.validators))
    }

    function Delay(tries: nat, retryAfter: Option<real>, left: real): real {
      if retryAfter.Some? && 0.0 <= retryAfter.value <= left then retryAfter.value
      else
        var backoff := policy.baseDelay * Pow2(tries);
        if backoff < left then backoff else left
    }

    /** The whole loop as a function of the script, when nothing goes wrong outside. */
    function Scripted(url: string, sent: Validators, cached: Option<Representation>, deadline: real,
                      at: real, n: nat, attempts: nat, redirects: nat, tries: nat): Ending
      requires script.Some? && redirects <= policy.maxRedirects && tries < policy.maxAttempts
      decreases policy.maxRedirects - redirects, policy.maxAttempts - tries
    {
      if at >= deadline then Ending(Err(TimeoutError), n, at)
      else if !Reachable(url) then Ending(Err(if redirects > 0 then RedirectError else PolicyError), n, at)
      else
        var response := Honestly(url, sent, at, script.value(n));
        match Decided(response, url, cached, attempts + 1, redirects, tries + 1 >= policy.maxAttempts)
        case Answered(result) => Ending(Ok(result), n + 1, at)
        case Failed(failure) => Ending(Err(failure), n + 1, at)
        case Moved =>
          var target := syntax.join(url, response.location.value).value;
          Scripted(target, sent, cached, deadline, at, n + 1, attempts + 1, redirects + 1, 0)
        case Again(retryAfter) =>
          var delay := Delay(tries, retryAfter, deadline - at);
          Scripted(url, sent, cached, deadline, if delay > 0.0 then at + delay else at, n + 1, attempts + 1, redirects, tries + 1)
        case Faulted(_) => Ending(Err(PolicyError), n + 1, at)
    }

    /** A request that was opened in time for an answer at `at`. */
    predicate RequestFor(e: Event, url: string, sent: Validators, at: real) {
      e.Sent? && e.url == url && e.headers.conditional == sent && e.opening.Some? && e.handed <= e.opening.value <= at
    }

    /** Where the call stands after a step that may have followed a redirect. */
    ghost predicate Reached(before: Trace, after: Trace, target: Option<string>) {
      match target
      case None => after.url == before.url && after.redirects == before.redirects && after.crossed == before.crossed
      case Some(url) =>
        && after.url == url && after.redirects == before.redirects + 1
        && after.crossed == (before.crossed || syntax.origin(url) != syntax.origin(before.url))
    }

    ghost predicate Explained(e: Exchange, cached: Option<Representation>)
      reads this`call, this`log, this`now
    {
      Explains(policy, syntax, cached.Some?, State(), e, now >= call.deadline)
    }

    /** Follow a redirect, unless there have been too many or it leads nowhere. */
    method Redirect(location: Option<string>, url: string, redirects: nat, cached: Option<Representation>)
      returns (e: Exchange, target: Option<string>)
      requires InOrder() && !State().late && State().url == url && State().redirects == redirects && State().requests > 0
      requires Last(State()).Some? && Last(State()).value.Got? && Last(State()).value.status in REDIRECTS
      requires Last(State()).value.location == location
      modifies this`log
      ensures InOrder() && !State().late && State().requests == old(State()).requests && State().tries == old(State()).tries
      ensures Reached(old(State()), State(), target) && Unbroken(State()) && Explained(e, cached)
      ensures old(State()).since <= State().since
      ensures if location.None? || redirects >= policy.maxRedirects || syntax.join(url, location.value).None?
              then e == Failed(RedirectError) && target == None && State() == old(State())
              else e == Moved && target == syntax.join(url, location.value) && Last(State()) == Some(Redirected(url, target.value))
    {
      hide Lawful, CacheAfter, SourcesAfter, Follow, StoredFits, SafeHttpClient.InOrder;
      if location.None? || redirects >= policy.maxRedirects {
        return Failed(RedirectError), None;
      }
      target := syntax.join(url, location.value);
      if target.None? {
        return Failed(RedirectError), None;
      }
      Note(Redirected(url, target.value));
      e := Moved;
    }

    /** The cached body stands for the answer 304. */
    method Revalidate(url: string, sent: Validators, cached: Option<Representation>, attempts: nat, ghost at: real) returns (e: Exchange)
      requires State().url == url && !State().late && State().requests > 0
      requires Last(State()).Some? && State().since[0].Got? && State().since[0].status == 304 && |State().since| == 1
      requires State().request.Some? && RequestFor(State().request.value, url, sent, at)
      requires sent == call.first.conditional && Matches(sent, world.rep(url, at).validators)
      ensures e == if cached.None? then Failed(InvalidNotModified)
                   else Answered(HttpResult(304, cached.value.body, url, attempts, cached.value.validators))
      ensures Explained(e, cached) && (e.Answered? ==> AnswerOk(e.result, cached, at))
    {
      hide Follow;
      e := if cached.None? then Failed(InvalidNotModified)
           else Answered(HttpResult(304, cached.value.body, url, attempts, cached.value.validators));
    }

    /** Read the body of a response that ends the call, and store it if it is a 2xx. */
    method Finish(response: Response, url: string, cached: Option<Representation>, key: string, attempts: nat, deadline: real, ghost at: real)
      returns (e: Exchange)
      requires InOrder() && key == call.key && deadline == call.deadline && State().url == url && !State().late
      requires State().request.Some? && RequestFor(State().request.value, url, call.first.conditional, at) && at <= now
      requires Success(response.status) ==> response.rep == world.rep(url, at)
      requires Plain(policy, response.status) && State().requests > 0
      requires State().since == [Seen(response)]
      modifies this`now, this`cache, this`sources, this`log
      ensures InOrder() && !State().late && now >= old(now) && Reached(old(State()), State(), None)
      ensures State().requests == old(State()).requests && State().tries == old(State()).tries && Unbroken(State())
      ensures old(State()).since <= State().since
      ensures script.Some? ==> now == old(now)
      ensures script.Some? && old(now) < deadline ==>
        e == if (response.declaredLength.Some? && response.declaredLength.value > policy.maxBytes) || |response.rep.body| > policy.maxBytes
             then Failed(ResponseTooLarge)
             else Answered(HttpResult(response.status, response.rep.body, url, attempts, response.rep.validators))
      ensures (e.Failed? && (e.failure == TimeoutError || e.failure == ResponseTooLarge)) || e.Faulted? || e.Answered?
      ensures Explained(e, cached)
      ensures e.Answered? ==> AnswerOk(e.result, cached, at) && e.result.attempts == attempts
    {
      hide Lawful, CacheAfter, SourcesAfter, Follow, StoredFits, SafeHttpClient.InOrder;
      if response.declaredLength.Some? && response.declaredLength.value > policy.maxBytes {
        return Failed(ResponseTooLarge);
      }
      var read, body := ReadBody(response.rep.body, deadline);
      if read != Moved {
        return read;
      }
      if Success(response.status) {
        Put(key, response.rep, url, at);
      }
      e := Answered(HttpResult(response.status, body, url, attempts, response.rep.validators));
    }

    /** Look at a response, unless the deadline has come. */
    method LookAt(response: Response, deadline: real) returns (late: bool)
      requires InOrder() && State().requests > 0 && State().since == [] && !State().late
      modifies this`now, this`log
      ensures InOrder() && now >= old(now) && (late ==> now >= deadline && log == old(log))
      ensures !late ==> State() == old(State()).(since := [Seen(response)])
      ensures script.Some? ==> now == old(now) && (late <==> now >= deadline)
    {
      hide Lawful, CacheAfter, SourcesAfter, Follow, StoredFits, SafeHttpClient.InOrder;
      var t := Clock();
      late := t >= deadline;
      if !late {
        Note(Seen(response));
      }
    }

    /** The body of the `with` block; a redirect is noted even if closing the response fails later. */
    method Handle(response: Response, url: string, sent: Validators, cached: Option<Representation>, key: string,
                  attempts: nat, redirects: nat, lastTry: bool, deadline: real, ghost at: real)
      returns (e: Exchange, target: Option<string>)
      requires InOrder() && key == call.key && deadline == call.deadline
      requires State().url == url && State().redirects == redirects && !State().late
      requires State().requests > 0 && State().since == [] && (lastTry <==> State().tries == policy.maxAttempts)
      requires 0 < State().tries <= policy.maxAttempts
      requires State().request.Some? && RequestFor(State().request.value, url, sent, at)
      requires sent == call.first.conditional && at <= now
      requires response.status == 304 ==> Matches(sent, world.rep(url, at).validators)
      requires Success(response.status) ==> response.rep == world.rep(url, at)
      modifies this`now, this`cache, this`sources, this`log
      ensures InOrder() && !State().late && now >= old(now)
      ensures State().requests == old(State()).requests && State().tries == old(State()).tries
      ensures Reached(old(State()), State(), target) && Unbroken(State())
      ensures Explained(e, cached)
      ensures e != Failed(TimeoutError) ==> State().since != [] && State().since[0] == Seen(response)
      ensures target.Some? <==> e.Moved?
      ensures script.Some? ==> now == old(now)
      ensures script.Some? && old(now) < deadline ==> e == Decided(response, url, cached, attempts, redirects, lastTry)
      ensures e.Moved? ==> response.location.Some? && target == syntax.join(url, response.location.value)
      ensures target.Some? ==> redirects < policy.maxRedirects
      ensures response.status in policy.retryable && response.status !in {301, 302, 303, 304, 307, 308} ==>
        e == (if State().tries == policy.maxAttempts then Failed(RetryExhausted) else Again(response.retryAfter)) || e == Failed(TimeoutError)
      ensures e == Failed(RetryExhausted) ==> State().tries == policy.maxAttempts && response.status in policy.retryable
      ensures e.Again? ==> !lastTry
      ensures e.Failed? ==> e.failure != InvalidHeader
      ensures e.Answered? ==> AnswerOk(e.result, cached, at) && e.result.attempts == attempts
    {
      target := None;
      hide Lawful, CacheAfter, SourcesAfter, Follow, StoredFits, SafeHttpClient.InOrder;
      hide Explains, EndsFor, FailedFor, SucceedsFor, MaySend, Tried, Retry, Pause, Truthful, Permitted, Next;
      var late := LookAt(response, deadline);
      if late {
        MayFailBetween(policy, syntax, cached.Some?, State(), TimeoutError, true);
        return Failed(TimeoutError), None;
      }
      GotExplains(policy, syntax, cached.Some?, State(), State().since[0], now >= deadline);
      if response.status in REDIRECTS {
        e, target := Redirect(response.location, url, redirects, cached);
        return;
      }
      if response.status == 304 {
        e := Revalidate(url, sent, cached, attempts, at);
        return;
      }
      if response.status !in policy.retryable {
        e := Finish(response, url, cached, key, attempts, deadline, at);
        return;
      }
      e := if lastTry then Failed(RetryExhausted) else Again(response.retryAfter);
    }

    /** Hand the request over to the worker, which opens it later or not at all; `late` when the caller gives up on it. */
    method Open(url: string, host: string, headers: Headers, deadline: real) returns (late: bool, failed: Option<Exchange>)
      requires InOrder() && OnTime() && deadline == call.deadline && State().url == url
      requires host in policy.allowedHosts && syntax.host(url) == Some(host)
      requires headers == HeadersNow(syntax, call.first, State().crossed) && (MaySend(policy, State()) || now >= deadline)
      modifies this`now, this`log
      ensures InOrder() && OnTime() && now >= old(now) && Reached(old(State()), State(), None)
      ensures if State().requests == old(State()).requests then State() == old(State())
              else State().tries == Tried(old(State())) + 1 && State().since == []
      ensures failed.None? ==> !State().late && State().requests == old(State()).requests + 1
      ensures failed.None? ==> State().request.Some? && RequestFor(State().request.value, url, headers.conditional, now)
      ensures failed.Some? ==> failed.value == Failed(TimeoutError) || failed.value.Faulted?
      ensures failed.Some? && State().requests == old(State()).requests ==> now >= deadline
      ensures failed.Some? ==> State().requests == old(State()).requests + 1 || (failed.value.Failed? && State().requests == old(State()).requests)
      ensures script.Some? ==> now == old(now)
      ensures script.Some? && old(now) < deadline ==> failed.None? && !late
    {
      late, failed := false, None;
      hide Lawful, CacheAfter, SourcesAfter, Follow, SafeHttpClient.InOrder;
      var t := Clock();
      if t < deadline {
        t := Clock();
      }
      if t >= deadline {
        return false, Some(Failed(TimeoutError));
      }
      var outcome: Limited := *;
      if script.Some? {
        outcome := Done;
      }
      var cancelled: bool := *;
      if outcome == Late && cancelled {
        Note(Sent(url, host, headers, t, None));
        return false, Some(Failed(TimeoutError));
      }
      var began := Clock();
      Note(Sent(url, host, headers, t, Some(began)));
      if outcome == Broke {
        var f := SomeFault();
        return false, Some(Faulted(f));
      }
      if began >= deadline {
        return false, Some(Failed(TimeoutError));
      }
      late := outcome == Late;
    }

    /** Open the stream, handle the response, close it; a failing close replaces the outcome. */
    method Exchange(url: string, host: string, headers: Headers, cached: Option<Representation>, key: string,
                    attempts: nat, redirects: nat, lastTry: bool, deadline: real)
      returns (e: Exchange, target: Option<string>, ghost at: real)
      requires InOrder() && OnTime() && key == call.key && deadline == call.deadline
      requires State().url == url && State().redirects == redirects
      requires host in policy.allowedHosts && syntax.host(url) == Some(host)
      requires headers == HeadersNow(syntax, call.first, State().crossed) && (MaySend(policy, State()) || now >= deadline)
      requires Tried(State()) < policy.maxAttempts && (lastTry <==> Tried(State()) + 1 == policy.maxAttempts)
      modifies this`now, this`served, this`cache, this`sources, this`log
      ensures InOrder() && OnTime() && now >= old(now)
      ensures State().requests == old(State()).requests + 1 || (e.Failed? && State().requests == old(State()).requests)
      ensures e.Failed? || State().tries == Tried(old(State())) + 1
      ensures Reached(old(State()), State(), target) && Explained(e, cached)
      ensures State().late ==> e.Failed? || e.Faulted?
      ensures e.Moved? ==> target.Some?
      ensures target.Some? ==> !State().late && (e.Moved? || e.Faulted?) && redirects < policy.maxRedirects
      ensures e.Again? ==> !lastTry
      ensures e.Failed? ==> e.failure != InvalidHeader
      ensures e.Answered? ==> AnswerOk(e.result, cached, at) && e.result.attempts == attempts && old(now) <= at <= now
      ensures script.Some? ==> now == old(now)
      ensures script.Some? && old(now) < deadline ==>
        var response := Honestly(url, call.first.conditional, now, script.value(old(served)));
        && served == old(served) + 1 && e == Decided(response, url, cached, attempts, redirects, lastTry)
        && (e.Moved? ==> target == syntax.join(url, response.location.value))
    {
      at := 0.0;
      hide Lawful, Permitted, CacheAfter, SourcesAfter, Follow, Truthful, SafeHttpClient.Decided, SafeHttpClient.Honestly;
      hide SafeHttpClient.InOrder, SafeHttpClient.AnswerOk;
      var late, failed := Open(url, host, headers, deadline);
      if failed.Some? {
        return failed.value, None, at;
      }
      var response, answered := Serve(url, headers.conditional);
      at := answered;
      var t := Clock();
      if late || t >= deadline {
        return Failed(TimeoutError), None, at;
      }
      e, target := Handle(response, url, headers.conditional, cached, key, attempts, redirects, lastTry, deadline, at);
      var closeFails: bool := *;
      if closeFails && script.None? {
        var f := SomeFault();
        e := Faulted(f);
      }
    }

    /** What an honest server answers. */
    lemma HonestlyIs(url: string, sent: Validators, at: real, plain: Response)
      ensures var held, r := world.rep(url, at), Honestly(url, sent, at, plain);
        var matching := if sent.etag.Some? then sent.etag == held.validators.etag
                        else sent.lastModified.Some? && sent.lastModified == held.validators.lastModified;
        if 200 <= plain.status < 300 then
          r == if plain.conditional && matching then plain.(status := 304) else plain.(rep := held)
        else r == if plain.status == 304 && !matching then plain.(status := 500) else plain
    {
    }

    /** The reading of a script written out: what one response leads to. */
    lemma ScriptIs(url: string, sent: Validators, cached: Option<Representation>, deadline: real,
                   at: real, n: nat, attempts: nat, redirects: nat, tries: nat)
      requires script.Some? && redirects <= policy.maxRedirects && tries < policy.maxAttempts
      ensures Scripted(url, sent, cached, deadline, at, n, attempts, redirects, tries) ==
        if at >= deadline then Ending(Err(TimeoutError), n, at)
        else if syntax.host(url).None? || syntax.host(url).value !in policy.allowedHosts
        then Ending(Err(if redirects > 0 then RedirectError else PolicyError), n, at)
        else
          var it := Honestly(url, sent, at, script.value(n));
          if it.status in {301, 302, 303, 307, 308} then
            if it.location.None? || redirects >= policy.maxRedirects || syntax.join(url, it.location.value).None?
            then Ending(Err(RedirectError), n + 1, at)
            else Scripted(syntax.join(url, it.location.value).value, sent, cached, deadline, at, n + 1, attempts + 1, redirects + 1, 0)
          else if it.status == 304 then
            if cached.None? then Ending(Err(InvalidNotModified), n + 1, at)
            else Ending(Ok(HttpResult(304, cached.value.body, url, attempts + 1, cached.value.validators)), n + 1, at)
          else if it.status in policy.retryable then
            if tries + 1 >= policy.maxAttempts then Ending(Err(RetryExhausted), n + 1, at)
            else
              var left, doubled := deadline - at, policy.baseDelay * Pow2(tries);
              var delay := if it.retryAfter.Some? && 0.0 <= it.retryAfter.value <= left then it.retryAfter.value
                           else if doubled < left then doubled else left;
              Scripted(url, sent, cached, deadline, if delay > 0.0 then at + delay else at, n + 1, attempts + 1, redirects, tries + 1)
          else if (it.declaredLength.Some? && it.declaredLength.value > policy.maxBytes) || |it.rep.body| > policy.maxBytes
          then Ending(Err(ResponseTooLarge), n + 1, at)
          else Ending(Ok(HttpResult(it.status, it.rep.body, url, attempts + 1, it.rep.validators)), n + 1, at)
    {
      hide SafeHttpClient.Honestly, Pow2;
    }

    lemma DelayFits(tries: nat, retryAfter: Option<real>, left: real)
      ensures Delay(tries, retryAfter, left) <= left
    {
    }

    lemma DelayIsPause(tries: nat, retryAfter: Option<real>, left: real, t: Trace)
      requires policy.Valid() && t.tries == tries + 1 && left >= 0.0 && Last(t).Some?
      requires retryAfter == if Last(t).value.Got? then Last(t).value.retryAfter else None
      ensures Delay(tries, retryAfter, left) == Pause(policy, t, left)
      ensures Delay(tries, retryAfter, left) <= 0.0 ==> left == 0.0 || retryAfter == Some(0.0)
    {
      BackoffGrows(policy.baseDelay, tries);
    }

    /** Wait before the next try, never longer than what is left. */
    method Wait(tries: nat, retryAfter: Option<real>, deadline: real)
      requires policy.Valid() && InOrder() && OnTime() && deadline == call.deadline && tries + 1 == State().tries
      requires Retry(policy, State()) && retryAfter == if Last(State()).value.Got? then Last(State()).value.retryAfter else None
      modifies this`now, this`log
      ensures InOrder() && OnTime() && now >= old(now) && State() == old(State()).(since := State().since)
      ensures old(log) <= log
      ensures MaySend(policy, State()) || now >= deadline
      ensures Tried(State()) == State().tries
      ensures script.Some? && old(now) < deadline ==>
        var delay := Delay(tries, retryAfter, deadline - old(now));
        now == if delay > 0.0 then old(now) + delay else old(now)
    {
      hide Lawful, CacheAfter, SourcesAfter, Follow, StoredFits, SafeHttpClient.InOrder, SafeHttpClient.Delay;
      var t := Clock();
      var left := if deadline > t then deadline - t else 0.0;
      var delay := Delay(tries, retryAfter, left);
      DelayFits(tries, retryAfter, left);
      DelayIsPause(tries, retryAfter, left, State());
      if delay > 0.0 {
        Note(Slept(delay, t));
        now := now + delay;
        var _ := Clock();
      }
    }

    /** One try for one target: look at the clock, validate the target, take a rate slot, exchange. */
    method Try(url: string, headers: Headers, cached: Option<Representation>, key: string,
               attempts: nat, redirects: nat, lastTry: bool, deadline: real)
      returns (e: Exchange, target: Option<string>, ghost at: real)
      requires InOrder() && OnTime() && key == call.key && deadline == call.deadline
      requires State().url == url && State().redirects == redirects
      requires headers == HeadersNow(syntax, call.first, State().crossed) && (MaySend(policy, State()) || now >= deadline)
      requires Tried(State()) < policy.maxAttempts && (lastTry <==> Tried(State()) + 1 == policy.maxAttempts)
      modifies this`now, this`served, this`cache, this`sources, this`log
      ensures InOrder() && OnTime() && now >= old(now)
      ensures State().requests == old(State()).requests + 1 || (e.Failed? && State().requests == old(State()).requests)
      ensures e.Failed? || State().tries == Tried(old(State())) + 1
      ensures Reached(old(State()), State(), target) && Explained(e, cached)
      ensures State().late ==> e.Failed? || e.Faulted?
      ensures e.Moved? ==> target.Some?
      ensures target.Some? ==> !State().late && (e.Moved? || e.Faulted?) && redirects < policy.maxRedirects
      ensures e.Again? ==> !lastTry
      ensures e.Failed? ==> e.failure != InvalidHeader
      ensures e.Answered? ==> AnswerOk(e.result, cached, at) && e.result.attempts == attempts && old(now) <= at <= now
      ensures script.Some? ==> now == old(now)
      ensures script.Some? && (old(now) >= deadline || !Reachable(url)) ==> served == old(served)
      ensures script.Some? && old(now) >= deadline ==> e == Failed(TimeoutError)
      ensures script.Some? && old(now) < deadline && !Reachable(url) ==>
        e == Failed(if redirects > 0 then RedirectError else PolicyError)
      ensures script.Some? && old(now) < deadline && Reachable(url) ==>
        var response := Honestly(url, call.first.conditional, now, script.value(old(served)));
        && served == old(served) + 1 && e == Decided(response, url, cached, attempts, redirects, lastTry)
        && (e.Moved? ==> target == syntax.join(url, response.location.value))
    {
      at := 0.0;
      hide Lawful, Permitted, CacheAfter, SourcesAfter, Follow, Truthful, Next, SafeHttpClient.Decided, SafeHttpClient.Honestly;
      hide Explains, EndsFor, FailedFor, SucceedsFor, MaySend, Last, Tried, Retry, Unbroken, StoredFits, HeadersNow;
      var t := Clock();
      if t >= deadline {
        MayFailBetween(policy, syntax, cached.Some?, State(), TimeoutError, true);
        return Failed(TimeoutError), None, at;
      }
      var host := Validate(url, deadline);
      if host.Err? {
        MayFailBetween(policy, syntax, cached.Some?, State(), host.failure, now >= deadline);
        if redirects > 0 {
          MayFailBetween(policy, syntax, cached.Some?, State(), RedirectError, now >= deadline);
        }
        return Failed(if redirects > 0 && host.failure == PolicyError then RedirectError else host.failure), None, at;
      }
      var slot := WithDeadline(deadline);
      if slot != Done {
        MayFailBetween(policy, syntax, cached.Some?, State(), TimeoutError, now >= deadline);
        MayFailBetween(policy, syntax, cached.Some?, State(), PolicyError, now >= deadline);
        return Failed(if slot == Late then TimeoutError else PolicyError), None, at;
      }
      t := Clock();
      if t >= deadline {
        MayFailBetween(policy, syntax, cached.Some?, State(), TimeoutError, true);
        return Failed(TimeoutError), None, at;
      }
      e, target, at := Exchange(url, host.value, headers, cached, key, attempts, redirects, lastTry, deadline);
    }

    /** The log shows why the call ends as it does. */
    ghost predicate Ended(r: Result<HttpResult>, cached: Option<Representation>)
      reads this`call, this`log, this`now
    {
      EndsFor(policy, syntax, cached.Some?, State(), r, now >= call.deadline)
    }

    /** Where the loops stand agrees with what the call has done. */
    ghost predicate At(c: Cursor)
      reads this`call, this`log, this`cache, this`sources, this`now
    {
      && InOrder() && OnTime()
      && c.url == State().url && c.redirects == State().redirects <= policy.maxRedirects
      && c.headers == HeadersNow(syntax, call.first, State().crossed)
      && c.tries == Tried(State()) && (MaySend(policy, State()) || now >= call.deadline)
      && State().requests == c.attempts <= Cap(c.redirects, policy.maxAttempts) + c.tries && c.tries < policy.maxAttempts
    }

    /** What the script makes of the rest of the call. */
    ghost function Rest(c: Cursor, cached: Option<Representation>): Ending
      requires script.Some? && c.redirects <= policy.maxRedirects && c.tries < policy.maxAttempts
      reads this`call, this`now, this`served
    {
      Scripted(c.url, call.first.conditional, cached, call.deadline, now, served, c.attempts, c.redirects, c.tries)
    }

    lemma TooLate(c: Cursor, cached: Option<Representation>)
      requires script.Some? && c.redirects <= policy.maxRedirects && c.tries < policy.maxAttempts && now >= call.deadline
      ensures Rest(c, cached) == Ending(Err(TimeoutError), served, now)
    {
    }

    /** What one round makes of the script. */
    lemma OneRound(c: Cursor, sent: Validators, cached: Option<Representation>, deadline: real, at: real, n: nat, e: Exchange, target: Option<string>)
      requires script.Some? && c.redirects <= policy.maxRedirects && c.tries < policy.maxAttempts && at < deadline
      requires !Reachable(c.url) ==> e == Failed(if c.redirects > 0 then RedirectError else PolicyError)
      requires Reachable(c.url) ==>
        var response := Honestly(c.url, sent, at, script.value(n));
        && e == Decided(response, c.url, cached, c.attempts + 1, c.redirects, c.tries + 1 >= policy.maxAttempts)
        && (e.Moved? ==> target == syntax.join(c.url, response.location.value))
      ensures var whole := Scripted(c.url, sent, cached, deadline, at, n, c.attempts, c.redirects, c.tries);
        match e
        case Answered(result) => whole == Ending(Ok(result), if Reachable(c.url) then n + 1 else n, at)
        case Failed(failure) => whole == Ending(Err(failure), if Reachable(c.url) then n + 1 else n, at)
        case Moved =>
          && target.Some? && c.redirects < policy.maxRedirects
          && whole == Scripted(target.value, sent, cached, deadline, at, n + 1, c.attempts + 1, c.redirects + 1, 0)
        case Again(retryAfter) =>
          var delay := Delay(c.tries, retryAfter, deadline - at);
          var later := if delay > 0.0 then at + delay else at;
          c.tries + 1 < policy.maxAttempts
          && whole == Scripted(c.url, sent, cached, deadline, later, n + 1, c.attempts + 1, c.redirects, c.tries + 1)
        case Faulted(_) => false
    {
    }

    /** A round leads to what the script makes of the rest of the call, or leaves the same to the next round. */
    ghost predicate AsScripted(ending: Ending, served0: nat, c: Cursor, cached: Option<Representation>, r: Option<Result<HttpResult>>, next: Cursor)
      requires script.Some?
      reads this`call, this`now, this`served, this`log
    {
      && (if r.Some? then Ending(r.value, served, now) == ending
          else next.redirects <= policy.maxRedirects && next.tries < policy.maxAttempts && Rest(next, cached) == ending)
      && (r.None? || r.value.Ok? ==> served - served0 == State().requests - c.attempts)
    }

    /** What the script makes of the rest of the call after one try that came out as `e`. */
    ghost predicate TriedAsScripted(ending: Ending, served0: nat, attempts: nat, c: Cursor, cached: Option<Representation>, e: Exchange)
      requires script.Some? && c.tries > 0
      reads this`call, this`now, this`served, this`log
    {
      && (!e.Failed? ==> served - served0 == State().requests - attempts && now < call.deadline)
      && match e
         case Answered(result) => ending == Ending(Ok(result), served, now)
         case Failed(failure) => ending == Ending(Err(failure), served, now)
         case Moved =>
           c.redirects <= policy.maxRedirects && policy.maxAttempts > 0 && Rest(c.(tries := 0), cached) == ending
         case Again(retryAfter) =>
           var delay := Delay(c.tries - 1, retryAfter, call.deadline - now);
           c.redirects <= policy.maxRedirects && c.tries < policy.maxAttempts
           && ending == Scripted(c.url, call.first.conditional, cached, call.deadline, if delay > 0.0 then now + delay else now, served,
                                 c.attempts, c.redirects, c.tries)
         case Faulted(_) => false
    }

    /** One try, and where it leaves the loop variables. */
    method Advance(c: Cursor, cached: Option<Representation>, key: string, deadline: real)
      returns (e: Exchange, next: Cursor, ghost at: real)
      requires policy.Valid() && At(c) && key == call.key && deadline == call.deadline
      modifies this`now, this`served, this`cache, this`sources, this`log
      ensures InOrder() && OnTime() && now >= old(now) && (State().late ==> e.Faulted? || e.Failed?)
      ensures next.tries == c.tries + 1 && next.attempts == c.attempts + 1
      ensures next.url == State().url && next.headers == HeadersNow(syntax, call.first, State().crossed)
      ensures c.redirects <= next.redirects == State().redirects <= policy.maxRedirects
      ensures State().requests <= next.attempts
      ensures !e.Failed? ==> State().requests == next.attempts && State().tries == next.tries
      ensures e.Moved? ==> next.redirects > c.redirects
      ensures e.Again? ==> next.tries < policy.maxAttempts
      ensures e.Failed? ==> e.failure != InvalidHeader
      ensures e.Answered? ==> AnswerOk(e.result, cached, at) && e.result.attempts == State().requests && old(now) <= at <= now
      ensures Explained(e, cached)
      ensures script.Some? ==> TriedAsScripted(old(Rest(c, cached)), old(served), c.attempts, next, cached, e)
    {
      hide Lawful, Permitted, CacheAfter, SourcesAfter, Follow, Truthful, Next, Cap, StoredFits, SafeHttpClient.AnswerOk;
      hide SafeHttpClient.Delay, SafeHttpClient.Honestly, SafeHttpClient.Scripted, SafeHttpClient.InOrder, SafeHttpClient.Decided;
      hide HeadersNow, Without, SafeHttpClient.Onward, SafeHttpClient.Reachable;
      hide Explains, EndsFor, FailedFor, SucceedsFor, MaySend, Last, Tried, Retry, Unbroken;
      var onward := c.(tries := c.tries + 1, attempts := c.attempts + 1);
      var target;
      e, target, at := Try(c.url, c.headers, cached, key, onward.attempts, c.redirects, onward.tries >= policy.maxAttempts, deadline);
      if script.Some? && old(now) >= deadline {
        TooLate(c, cached);
      } else if script.Some? {
        OneRound(c, call.first.conditional, cached, deadline, old(now), old(served), e, target);
      }
      OnwardOk(onward, target, old(State()));
      next := Onward(onward, target);
    }

    /** The loop variables after a response that may have been a redirect. */
    function Onward(c: Cursor, target: Option<string>): Cursor {
      if target.None? then c else
        var kept := if syntax.origin(target.value) == syntax.origin(c.url) then c.headers.custom else Without(c.headers.custom, syntax.sensitive);
        c.(url := target.value, redirects := c.redirects + 1, headers := c.headers.(custom := kept))
    }

    lemma OnwardOk(c: Cursor, target: Option<string>, before: Trace)
      requires c.url == before.url && c.headers == HeadersNow(syntax, call.first, before.crossed)
      ensures forall after | Reached(before, after, target) ::
        Onward(c, target).url == after.url && Onward(c, target).headers == HeadersNow(syntax, call.first, after.crossed)
      ensures var o := Onward(c, target);
        && o.headers.conditional == c.headers.conditional && o.attempts == c.attempts && o.tries == c.tries
        && o.redirects == (if target.Some? then c.redirects + 1 else c.redirects)
        && o.url == (if target.Some? then target.value else c.url)
    {
      DropTwice(syntax, call.first, before.crossed);
    }

    /** End with a result, break out after a redirect, wait before another try, or give up after a fault. */
    method GoOn(c: Cursor, e: Exchange, cached: Option<Representation>, deadline: real)
      returns (r: Option<Result<HttpResult>>, moved: bool, next: Cursor)
      requires policy.Valid() && InOrder() && OnTime() && deadline == call.deadline
      requires Explained(e, cached) && (State().late ==> e.Faulted? || e.Failed?)
      requires !e.Failed? ==> 0 < State().tries == c.tries <= policy.maxAttempts
      modifies this`now, this`log
      ensures InOrder() && OnTime() && now >= old(now) && State() == old(State()).(since := State().since)
      ensures r.None? ==> next.tries == Tried(State()) && (MaySend(policy, State()) || now >= deadline)
      ensures r.Some? ==> Ended(r.value, cached)
      ensures match e
              case Answered(result) => r == Some(Ok(result)) && now == old(now) && log == old(log)
              case Failed(failure) => r == Some(Err(failure)) && now == old(now) && State() == old(State())
              case Faulted(fault) =>
                && old(log) + [BrokeOff(fault)] <= log && (r.Some? ==> |log| == |old(log)| + 1)
                && if fault == OtherHttpFault then r == Some(Err(PolicyError))
                   else if c.tries >= policy.maxAttempts then r == Some(Err(if fault == TransportTimeout then TimeoutError else RetryExhausted))
                   else r.None?
              case _ => r.None?
      ensures moved <==> e.Moved?
      ensures r.None? ==> next == (if moved then c.(tries := 0) else c) && (moved || c.tries < policy.maxAttempts)
      ensures script.Some? && old(now) < deadline && e.Again? ==>
        var delay := Delay(c.tries - 1, e.retryAfter, deadline - old(now));
        now == if delay > 0.0 then old(now) + delay else old(now)
      ensures script.Some? && e.Moved? ==> now == old(now)
    {
      r, moved, next := None, false, c;
      hide Lawful, CacheAfter, SourcesAfter, Follow, StoredFits, HeadersNow, SafeHttpClient.InOrder, SafeHttpClient.Delay;
      ExplainedEnds(policy, syntax, cached.Some?, State(), e, now >= deadline);
      if e.Answered? {
        return Some(Ok(e.result)), false, c;
      }
      if e.Failed? {
        return Some(Err(e.failure)), false, c;
      }
      if e.Moved? {
        return None, true, c.(tries := 0);
      }
      if e.Faulted? {
        Note(BrokeOff(e.fault));
      }
      if e.Faulted? && e.fault == OtherHttpFault {
        return Some(Err(PolicyError)), false, c;
      }
      if e.Faulted? && c.tries >= policy.maxAttempts {
        return Some(Err(if e.fault == TransportTimeout then TimeoutError else RetryExhausted)), false, c;
      }
      Wait(c.tries - 1, if e.Again? then e.retryAfter else None, deadline);
    }

    /** One round of the inner loop: a result, a redirect, or another try. */
    method Round(c: Cursor, cached: Option<Representation>, key: string, deadline: real)
      returns (r: Option<Result<HttpResult>>, moved: bool, next: Cursor, ghost at: real)
      requires policy.Valid() && At(c) && key == call.key && deadline == call.deadline
      modifies this`now, this`served, this`cache, this`sources, this`log
      ensures InOrder() && now >= old(now) && c.redirects <= State().redirects <= policy.maxRedirects
      ensures State().requests <= Cap(policy.maxRedirects + 1, policy.maxAttempts)
      ensures r.None? ==> At(next) && next.redirects >= c.redirects
      ensures r.None? ==> if moved then next.redirects > c.redirects && next.tries == 0 else next.tries == c.tries + 1
      ensures r.Some? ==> r.value != Err(InvalidHeader) && Ended(r.value, cached)
      ensures r.Some? && r.value.Ok? ==>
        AnswerOk(r.value.value, cached, at) && r.value.value.attempts == State().requests && old(now) <= at <= now
      ensures script.Some? ==> AsScripted(old(Rest(c, cached)), old(served), c, cached, r, next)
    {
      hide Lawful, Permitted, CacheAfter, SourcesAfter, Follow, Truthful, Next, Cap, StoredFits, SafeHttpClient.AnswerOk;
      hide SafeHttpClient.Delay, SafeHttpClient.Scripted, SafeHttpClient.InOrder, HeadersNow;
      hide Explains, EndsFor, FailedFor, SucceedsFor, MaySend, Last, Tried, Retry, Unbroken;
      CapGrows(c.redirects + 1, policy.maxRedirects + 1, policy.maxAttempts);
      CapGrows(c.redirects, policy.maxRedirects, policy.maxAttempts);
      var e, onward;
      e, onward, at := Advance(c, cached, key, deadline);
      CapMonotone(c.redirects, onward.redirects, policy.maxAttempts);
      r, moved, next := GoOn(onward, e, cached, deadline);
    }

    /**
     The two nested loops.  Each inner round follows a redirect or uses up a try, so the pair
     (redirects left, tries left) goes down lexicographically whatever the servers do.
     */
    method Loop(start: string, first: Headers, cached: Option<Representation>, key: string, deadline: real)
      returns (r: Result<HttpResult>, ghost at: real)
      requires policy.Valid() && log == [] && call == CallInfo(start, first, deadline, key, cache, sources)
      requires InOrder() && State() == Begun(start)
      modifies this`now, this`served, this`cache, this`sources, this`log
      ensures InOrder()
      ensures State().requests <= Cap(policy.maxRedirects + 1, policy.maxAttempts) && State().redirects <= policy.maxRedirects
      ensures r.Ok? ==> AnswerOk(r.value, cached, at) && r.value.attempts == State().requests && old(now) <= at <= now
      ensures r != Err(InvalidHeader) && Ended(r, cached)
      ensures script.Some? ==>
        Ending(r, served, now) == Scripted(start, first.conditional, cached, deadline, old(now), old(served), 0, 0, 0)
      ensures script.Some? && r.Ok? ==> served == old(served) + State().requests
    {
      at := 0.0;
      CapGrows(0, policy.maxRedirects, policy.maxAttempts);
      var c := Cursor(start, first, 0, 0, 0);
      hide Lawful, Permitted, CacheAfter, SourcesAfter, Follow, Truthful, Next, Cap, SafeHttpClient.Scripted, SafeHttpClient.InOrder;
      while true
        invariant At(c) && now >= old(now) && c.tries == 0
        invariant script.Some? ==> served == old(served) + c.attempts && Rest(c, cached) == old(Rest(Cursor(start, first, 0, 0, 0), cached))
        decreases policy.maxRedirects - c.redirects
      {
        ghost var entered := c.redirects;
        while true
          invariant At(c) && now >= old(now) && c.redirects >= entered
          invariant script.Some? ==> served == old(served) + c.attempts && Rest(c, cached) == old(Rest(Cursor(start, first, 0, 0, 0), cached))
          decreases policy.maxRedirects - c.redirects, policy.maxAttempts - c.tries
        {
          var done, moved, next, answered := Round(c, cached, key, deadline);
          at := answered;
          if done.Some? {
            return done.value, at;
          }
          c := next;
          if moved {
            break;
          }
        }
      }
    }

    /** Before the first event. */
    lemma Untouched()
      requires log == [] && cache == call.cache && sources == call.sources
      ensures InOrder() && State() == Begun(call.start)
    {
      NothingYet(policy, syntax, world, call);
    }

    /** What the state of a call says about the call. */
    lemma Conforming(request: Request, cache0: map<string, Representation>, sources0: map<string, Source>,
                     begun: real, r: Result<HttpResult>, at: real)
      requires InOrder()
      requires var key := syntax.key(request.url, request.accept);
        call == CallInfo(request.url, FirstHeaders(syntax, request, Lookup(cache0, key)), call.deadline, key, cache0, sources0)
      requires State().requests <= Cap(policy.maxRedirects + 1, policy.maxAttempts) && State().redirects <= policy.maxRedirects
      requires policy.enabled && policy.identified ==>
        (r == Err(InvalidHeader) <==> !WellFormed(syntax, request, Lookup(cache0, syntax.key(request.url, request.accept))))
      requires r.Ok? ==>
        && AnswerOk(r.value, Lookup(cache0, syntax.key(request.url, request.accept)), at)
        && r.value.attempts == State().requests && begun <= at <= now
      requires Ended(r, Lookup(cache0, syntax.key(request.url, request.accept)))
      ensures Conforms(policy, syntax, world, Call(request, cache0, sources0, cache, sources, log, call.deadline, begun, now, r, at))
    {
      hide Lawful, Permitted, CacheAfter, SourcesAfter, Follow, Truthful, WellFormed, FirstHeaders, Lookup, StoredFits, Cap;
    }

    /** The result, the requests served and the time that the script leads to. */
    ghost predicate EndsAsScripted(request: Request, cached: Option<Representation>, begun: real, served0: nat, r: Result<HttpResult>)
      reads this`call, this`now, this`served
    {
      script.Some? && policy.Valid() && WellFormed(syntax, request, cached) ==>
        Ending(r, served, now) ==
          Scripted(request.url, call.first.conditional, cached, begun + policy.totalTimeout, begun, served0, 0, 0, 0)
    }

    /** The call of a client that may use the network. */
    method GetAllowed(request: Request) returns (r: Result<HttpResult>, ghost at: real)
      requires policy.Valid() && policy.enabled && policy.identified
      modifies this
      ensures call.key == syntax.key(request.url, request.accept) && call.start == request.url
      ensures call.first == FirstHeaders(syntax, request, Lookup(old(cache), call.key))
      ensures Conforms(policy, syntax, world, Call(request, old(cache), old(sources), cache, sources, log, call.deadline, old(now), now, r, at))
      ensures call.deadline >= old(now) + policy.totalTimeout
      ensures r == Err(InvalidHeader) <==> !WellFormed(syntax, request, Lookup(old(cache), call.key))
      ensures r == Err(InvalidHeader) ==> log == []
      ensures EndsAsScripted(request, Lookup(old(cache), call.key), old(now), old(served), r)
      ensures script.Some? && r.Ok? ==> served == old(served) + r.value.attempts
    {
      hide Lawful, Permitted, CacheAfter, SourcesAfter, Follow, Next, Truthful, WellFormed, FirstHeaders, Lookup, SafeHttpClient.Scripted;
      hide StoredFits, HeadersNow, Cap, Conforms, SafeHttpClient.AnswerOk, SafeHttpClient.InOrder;
      CapGrows(0, policy.maxRedirects, policy.maxAttempts);
      log, at := [], 0.0;
      var key := syntax.key(request.url, request.accept);
      var cached := Lookup(cache, key);
      var first := FirstHeaders(syntax, request, cached);
      var deadline := Clock();
      deadline := deadline + policy.totalTimeout;
      call := CallInfo(request.url, first, deadline, key, cache, sources);
      Untouched();
      if !WellFormed(syntax, request, cached) {
        Conforming(request, old(cache), old(sources), old(now), Err(InvalidHeader), at);
        return Err(InvalidHeader), at;
      }
      r, at := Loop(request.url, first, cached, key, deadline);
      Conforming(request, old(cache), old(sources), old(now), r, at);
    }

    method Get(request: Request) returns (r: Result<HttpResult>, ghost at: real)
      requires policy.Valid()
      modifies this
      ensures call.key == syntax.key(request.url, request.accept) && call.start == request.url
      ensures call.first == FirstHeaders(syntax, request, Lookup(old(cache), call.key))
      ensures Conforms(policy, syntax, world, Call(request, old(cache), old(sources), cache, sources, log, call.deadline, old(now), now, r, at))
      ensures policy.enabled && policy.identified ==> call.deadline >= old(now) + policy.totalTimeout
      ensures !policy.enabled ==> r == Err(NetworkDisabled) && log == []
      ensures policy.enabled && !policy.identified ==> r == Err(PolicyError) && log == []
      ensures policy.enabled && policy.identified ==> (r == Err(InvalidHeader) <==> !WellFormed(syntax, request, Lookup(old(cache), call.key)))
      ensures policy.enabled && policy.identified ==>
        (r == Err(InvalidHeader) <==>
          || (exists n | n in request.headers :: !syntax.nameOk(n) || !syntax.valueOk(request.headers[n]))
          || !syntax.valueOk(request.accept)
          || (call.key in old(cache) && var v := old(cache)[call.key].validators;
              (v.etag.Some? && !syntax.valueOk(v.etag.value)) || (v.lastModified.Some? && !syntax.valueOk(v.lastModified.value))))
      ensures r == Err(InvalidHeader) ==> log == []
      ensures call.first.conditional == if call.key in old(cache) then old(cache)[call.key].validators else Validators(None, None)
      ensures forall n :: n in call.first.custom <==> n in request.headers && !syntax.protected(n)
      ensures forall n | n in call.first.custom :: call.first.custom[n] == request.headers[n]
      ensures r.Ok? && r.value.status != 304 ==>
        r.value.status !in {301, 302, 303, 307, 308} && r.value.status !in policy.retryable
      ensures r == Err(RetryExhausted) ==> exists k: nat | k <= |log| ::
        SentIn(log, k, |log|) == policy.maxAttempts && (k == 0 || log[k - 1].Redirected?)
      ensures policy.enabled && policy.identified ==> EndsAsScripted(request, Lookup(old(cache), call.key), old(now), old(served), r)
      ensures script.Some? && r.Ok? ==> served == old(served) + r.value.attempts
    {
      hide Lawful, Permitted, CacheAfter, SourcesAfter, Follow, Next, Truthful, WellFormed, FirstHeaders, Lookup;
      hide StoredFits, HeadersNow, Cap, Conforms, SafeHttpClient.AnswerOk, SafeHttpClient.InOrder, SafeHttpClient.EndsAsScripted;
      FirstHeadersAre(syntax, request, cache, syntax.key(request.url, request.accept));
      if policy.enabled && policy.identified {
        r, at := GetAllowed(request);
        ghost var done := Call(request, old(cache), old(sources), cache, sources, log, call.deadline, old(now), now, r, at);
        hide *;
        if r.Ok? {
          FinalStatus(policy, syntax, world, done);
        } else if r.failure == RetryExhausted {
          var k := GivesUpAfterAllTries(policy, syntax, world, done);
        }
        return;
      }
      CapGrows(0, policy.maxRedirects, policy.maxAttempts);
      log, at := [], 0.0;
      var key := syntax.key(request.url, request.accept);
      call := CallInfo(request.url, FirstHeaders(syntax, request, Lookup(cache, key)), now, key, cache, sources);
      Untouched();
      r := Err(if policy.enabled then PolicyError else NetworkDisabled);
      Conforming(request, old(cache), old(sources), old(now), r, at);
    }
  }

  lemma Overwritten(world: World, cache: map<string, Representation>, sources: map<string, Source>, key: string, was: Option<Source>, now: Source)
    ensures CacheAfter(world, cache, key, was)[key := world.rep(now.url, now.at)] == CacheAfter(world, cache, key, Some(now))
    ensures SourcesAfter(sources, key, was)[key := now] == SourcesAfter(sources, key, Some(now))
  {
  }

  lemma NothingYet(policy: Policy, syntax: Syntax, world: World, call: CallInfo)
    ensures Lawful(policy, syntax, call.first, call.deadline, call.start, [])
    ensures Follow(syntax, call.deadline, call.start, []) == Begun(call.start)
    ensures CacheAfter(world, call.cache, call.key, None) == call.cache && SourcesAfter(call.sources, call.key, None) == call.sources
    ensures StoredFits(policy, world, None)
  {
  }

  /** Whether the caller's headers and the cached validators are well formed. */
  predicate WellFormed(syntax: Syntax, request: Request, cached: Option<Representation>) {
    && (forall n | n in request.headers :: syntax.nameOk(n) && syntax.valueOk(request.headers[n]))
    && syntax.valueOk(request.accept)
    && (cached.Some? ==> Sendable(syntax, cached.value.validators))
  }

  /** The tries for this many targets. */
  function Cap(targets: nat, each: nat): nat { targets * each }

  lemma CapGrows(redirects: nat, maxRedirects: nat, maxAttempts: nat)
    requires redirects <= maxRedirects
    ensures Cap(redirects + 1, maxAttempts) == Cap(redirects, maxAttempts) + maxAttempts <= Cap(maxRedirects + 1, maxAttempts)
    ensures Cap(0, maxAttempts) == 0
  {
    assert (maxRedirects - redirects) * maxAttempts >= 0;
  }

  lemma {:induction false} CapMonotone(redirects: nat, later: nat, each: nat)
    requires redirects <= later
    ensures Cap(redirects, each) <= Cap(later, each) && (redirects < later ==> Cap(redirects, each) + each <= Cap(later, each))
    decreases later
  {
    hide Cap;
    if redirects < later {
      CapGrows(later - 1, later - 1, each);
      CapMonotone(redirects, later - 1, each);
    }
  }

  lemma DropTwice(syntax: Syntax, first: Headers, crossed: bool)
    ensures var h := HeadersNow(syntax, first, crossed);
      h.(custom := Without(h.custom, syntax.sensitive)) == HeadersNow(syntax, first, true)
  {
    assert Without(Without(first.custom, syntax.sensitive), syntax.sensitive) == Without(first.custom, syntax.sensitive);
  }

  predicate Sendable(syntax: Syntax, v: Validators) {
    && (v.etag.Some? ==> syntax.valueOk(v.etag.value))
    && (v.lastModified.Some? ==> syntax.valueOk(v.lastModified.value))
  }

  function Lookup(cache: map<string, Representation>, key: string): Option<Representation> {
    if key in cache then Some(cache[key]) else None
  }

  function FirstHeaders(syntax: Syntax, request: Request, cached: Option<Representation>): Headers {
    Headers(Without(request.headers, syntax.protected), if cached.Some? then cached.value.validators else NO_VALIDATORS)
  }

  /** Which headers a call starts with, and when it is refused for them. */
  lemma FirstHeadersAre(syntax: Syntax, request: Request, cache: map<string, Representation>, key: string)
    ensures var first := FirstHeaders(syntax, request, Lookup(cache, key));
      && first.conditional == (if key in cache then cache[key].validators else Validators(None, None))
      && (forall n :: n in first.custom <==> n in request.headers && !syntax.protected(n))
      && (forall n | n in first.custom :: first.custom[n] == request.headers[n])
    ensures WellFormed(syntax, request, Lookup(cache, key)) <==>
      && (forall n | n in request.headers :: syntax.nameOk(n) && syntax.valueOk(request.headers[n]))
      && syntax.valueOk(request.accept)
      && (key in cache ==>
            var v := cache[key].validators;
            (v.etag.Some? ==> syntax.valueOk(v.etag.value)) && (v.lastModified.Some? ==> syntax.valueOk(v.lastModified.value)))
  {
  }

  // --- what is known of one call ---

  /** An answer belongs to the latest request of its call, at the URL that the redirects reached. */
  ghost predicate Truthful(policy: Policy, world: World, t: Trace, first: Headers, cached: Option<Representation>, r: HttpResult, at: real) {
    && !t.late && t.url == r.url
    && t.request.Some? && t.request.value.Sent? && t.request.value.url == r.url
    && t.request.value.headers.conditional == first.conditional
    && t.request.value.opening.Some? && t.request.value.handed <= t.request.value.opening.value <= at
    && (r.status == 304 ==> cached.Some? && r.body == cached.value.body && r.validators == cached.value.validators && Matches(first.conditional, world.rep(r.url, at).validators))
    && (Success(r.status) ==>
          && r.body == world.rep(r.url, at).body && r.validators == world.rep(r.url, at).validators
          && |r.body| <= policy.maxBytes && t.stored == Some(Source(r.url, at)))
  }

  /** A call of `get` as seen from outside: what it started from, what it did and what it gave. */
  datatype Call = Call(
    request: Request,
    cache0: map<string, Representation>,
    sources0: map<string, Source>,
    cache1: map<string, Representation>,
    sources1: map<string, Source>,
    log: seq<Event>,
    deadline: real,
    begun: real,
    ended: real,
    result: Result<HttpResult>,
    at: real)

  /** What every call of `get` satisfies, whatever the servers do. */
  ghost predicate Conforms(policy: Policy, syntax: Syntax, world: World, c: Call) {
    var key := syntax.key(c.request.url, c.request.accept);
    var cached := Lookup(c.cache0, key);
    var first := FirstHeaders(syntax, c.request, cached);
    var t := Follow(syntax, c.deadline, c.request.url, c.log);
    && Lawful(policy, syntax, first, c.deadline, c.request.url, c.log)
    && t.requests <= Cap(policy.maxRedirects + 1, policy.maxAttempts) && t.redirects <= policy.maxRedirects
    && c.cache1 == CacheAfter(world, c.cache0, key, t.stored) && c.sources1 == SourcesAfter(c.sources0, key, t.stored)
    && StoredFits(policy, world, t.stored)
    && (policy.enabled && policy.identified ==> (c.result == Err(InvalidHeader) <==> !WellFormed(syntax, c.request, cached)))
    && EndsFor(policy, syntax, cached.Some?, t, c.result, c.ended >= c.deadline)
    && (c.result.Ok? ==>
          && Truthful(policy, world, t, first, cached, c.result.value, c.at)
          && c.result.value.attempts == t.requests && c.begun <= c.at <= c.ended)
  }

  // --- the rules for every event of a call ---

  lemma {:induction false} PermittedAt(policy: Policy, syntax: Syntax, first: Headers, deadline: real, start: string, log: seq<Event>, j: nat)
    requires Lawful(policy, syntax, first, deadline, start, log) && j < |log|
    ensures Permitted(policy, syntax, first, deadline, Follow(syntax, deadline, start, log[..j]), log[j])
  {
    var before := log[..|log| - 1];
    if j < |log| - 1 {
      PermittedAt(policy, syntax, first, deadline, start, before, j);
      assert before[..j] == log[..j];
    }
  }

  predicate Crossing(syntax: Syntax, e: Event) { e.Redirected? && syntax.origin(e.target) != syntax.origin(e.source) }

  lemma {:induction false} FlagsStay(syntax: Syntax, deadline: real, start: string, log: seq<Event>, i: nat)
    requires i < |log|
    ensures Crossing(syntax, log[i]) ==> Follow(syntax, deadline, start, log).crossed
    ensures OpenedLate(log[i], deadline) ==> Follow(syntax, deadline, start, log).late
  {
    if i < |log| - 1 {
      FlagsStay(syntax, deadline, start, log[..|log| - 1], i);
    }
  }

  /** After a redirect to another origin no request of the call carries a sensitive header; the others are kept. */
  lemma NothingSensitiveAfterCrossing(policy: Policy, syntax: Syntax, first: Headers, deadline: real, start: string, log: seq<Event>,
                                      i: nat, j: nat)
    requires Lawful(policy, syntax, first, deadline, start, log) && i < j < |log|
    requires log[i].Redirected? && syntax.origin(log[i].target) != syntax.origin(log[i].source) && log[j].Sent?
    ensures forall n | n in log[j].headers.custom :: !syntax.sensitive(n)
    ensures forall n | n in first.custom && !syntax.sensitive(n) ::
      n in log[j].headers.custom && log[j].headers.custom[n] == first.custom[n]
  {
    PermittedAt(policy, syntax, first, deadline, start, log, j);
    FlagsStay(syntax, deadline, start, log[..j], i);
  }

  lemma {:induction false} LedTo(syntax: Syntax, deadline: real, start: string, log: seq<Event>, i: nat, j: nat)
    requires i < j <= |log| && log[i].Redirected? && forall k | i < k < j :: !log[k].Redirected?
    ensures Follow(syntax, deadline, start, log[..j]).url == log[i].target
  {
    hide Follow;
    StepIs(syntax, deadline, start, log, j - 1);
    if i < j - 1 {
      LedTo(syntax, deadline, start, log, i, j - 1);
    }
  }

  lemma {:induction false} NotLed(syntax: Syntax, deadline: real, start: string, log: seq<Event>, j: nat)
    requires j <= |log|
    ensures (forall k: nat | k < j :: !log[k].Redirected?) ==> Follow(syntax, deadline, start, log[..j]).url == start
    ensures (forall k: nat | k < j && log[k].Redirected? :: syntax.origin(log[k].target) == syntax.origin(log[k].source)) ==>
      !Follow(syntax, deadline, start, log[..j]).crossed
  {
    if j > 0 {
      NotLed(syntax, deadline, start, log, j - 1);
      hide Follow;
      StepIs(syntax, deadline, start, log, j - 1);
    }
  }

  /**
     Every request goes where the last redirect before it led, or to the requested URL; its conditional
     headers are those of the call, and as long as no redirect has left the origin so are all the others.
   */
  lemma RequestsAreLed(policy: Policy, syntax: Syntax, first: Headers, deadline: real, start: string, log: seq<Event>, j: nat)
    requires Lawful(policy, syntax, first, deadline, start, log) && j < |log| && (log[j].Sent? || log[j].Redirected?)
    ensures var url := if log[j].Sent? then log[j].url else log[j].source;
      && ((forall k: nat | k < j :: !log[k].Redirected?) ==> url == start)
      && (forall i | 0 <= i < j && log[i].Redirected? && (forall k | i < k < j :: !log[k].Redirected?) :: url == log[i].target)
    ensures log[j].Sent? ==> log[j].headers.conditional == first.conditional
    ensures log[j].Sent? && (forall k: nat | k < j && log[k].Redirected? :: syntax.origin(log[k].target) == syntax.origin(log[k].source)) ==>
      log[j].headers == first
  {
    hide Lawful, Follow;
    PermittedAt(policy, syntax, first, deadline, start, log, j);
    NotLed(syntax, deadline, start, log, j);
    forall i | 0 <= i < j && log[i].Redirected? && forall k | i < k < j :: !log[k].Redirected?
      ensures Follow(syntax, deadline, start, log[..j]).url == log[i].target
    {
      LedTo(syntax, deadline, start, log, i, j);
    }
  }

  lemma {:induction false} StoredAt(syntax: Syntax, deadline: real, start: string, log: seq<Event>, i: int, j: nat)
    requires -1 <= i < j <= |log|
    requires (i >= 0 ==> log[i].Full?) && forall k: nat | i < k < j :: !log[k].Full?
    ensures Follow(syntax, deadline, start, log[..j]).stored == if i >= 0 then Some(Source(log[i].url, log[i].at)) else None
  {
    hide *;
    if j == 0 {
      NothingStored(syntax, deadline, start, log);
    } else {
      StepIs(syntax, deadline, start, log, j - 1);
      NextStored(syntax, deadline, Follow(syntax, deadline, start, log[..j - 1]), log[j - 1]);
      if i < j - 1 {
        StoredAt(syntax, deadline, start, log, i, j - 1);
      }
    }
  }

  lemma NothingStored(syntax: Syntax, deadline: real, start: string, log: seq<Event>)
    ensures Follow(syntax, deadline, start, log[..0]).stored == None
  {
  }

  lemma NextStored(syntax: Syntax, deadline: real, t: Trace, e: Event)
    ensures Next(syntax, deadline, t, e).stored == if e.Full? then Some(Source(e.url, e.at)) else t.stored
  {
  }

  /**
     The cache after a call: the key holds what the origin gave in the last 2xx response that was read
     to its end; without one the cache is as before.
   */
  lemma CacheIsTheLastFull(policy: Policy, syntax: Syntax, world: World, c: Call, i: int)
    requires Conforms(policy, syntax, world, c) && -1 <= i < |c.log|
    requires (i >= 0 ==> c.log[i].Full?) && forall k: nat | i < k < |c.log| :: !c.log[k].Full?
    ensures i < 0 ==> c.cache1 == c.cache0
    ensures i >= 0 ==>
      && c.cache1 == c.cache0[syntax.key(c.request.url, c.request.accept) := world.rep(c.log[i].url, c.log[i].at)]
      && i > 0 && c.log[i - 1].Got? && 200 <= c.log[i - 1].status < 300 && c.log[i - 1].status !in policy.retryable
  {
    hide Lawful, Follow, Truthful, EndsFor, StoredFits, WellFormed, HeadersNow;
    assert c.log[..|c.log|] == c.log;
    StoredAt(syntax, c.deadline, c.request.url, c.log, i, |c.log|);
    if i >= 0 {
      var first := FirstHeaders(syntax, c.request, Lookup(c.cache0, syntax.key(c.request.url, c.request.accept)));
      PermittedAt(policy, syntax, first, c.deadline, c.request.url, c.log, i);
      SinceIsTheEnd(syntax, c.deadline, c.request.url, c.log, i);
    }
  }

  /**
     Every request goes to an allowed host and is handed over before the deadline, and every sleep
     ends by it.  A request is opened before the deadline unless nothing follows it in its call, but
     perhaps the note that it failed.
   */
  lemma AlwaysBounded(policy: Policy, syntax: Syntax, first: Headers, deadline: real, start: string, log: seq<Event>, j: nat)
    requires Lawful(policy, syntax, first, deadline, start, log) && j < |log|
    ensures log[j].Sent? ==>
      && log[j].handed < deadline && log[j].host in policy.allowedHosts && syntax.host(log[j].url) == Some(log[j].host)
      && (log[j].opening.Some? && j < |log| - 1 ==> log[j].opening.value < deadline || (j == |log| - 2 && log[j + 1].BrokeOff?))
    ensures log[j].Slept? ==> 0.0 < log[j].seconds && log[j].at + log[j].seconds <= deadline
  {
    PermittedAt(policy, syntax, first, deadline, start, log, j);
    hide Lawful, Follow, HeadersNow, MaySend, Retry, Pause, Unbroken, Last, Plain;
    if j < |log| - 1 {
      PermittedAt(policy, syntax, first, deadline, start, log, j + 1);
      FlagsStay(syntax, deadline, start, log[..j + 1], j);
    }
    if j < |log| - 2 {
      PermittedAt(policy, syntax, first, deadline, start, log, j + 2);
      FlagsStay(syntax, deadline, start, log[..j + 2], j);
      assert log[..j + 2][..j + 1] == log[..j + 1];
    }
  }

  /** Every request of a call that succeeds was opened before the deadline. */
  lemma SuccessIsInTime(policy: Policy, syntax: Syntax, world: World, c: Call, j: nat)
    requires Conforms(policy, syntax, world, c) && c.result.Ok? && j < |c.log| && c.log[j].Sent?
    ensures c.log[j].opening.Some? ==> c.log[j].opening.value < c.deadline
  {
    FlagsStay(syntax, c.deadline, c.request.url, c.log, j);
  }

  // --- why a call goes on, and why it ends ---

  /** The requests from `k` up to `j`. */
  function SentIn(log: seq<Event>, k: nat, j: nat): nat
    requires j <= |log|
  {
    if j <= k then 0 else SentIn(log, k, j - 1) + if log[j - 1].Sent? then 1 else 0
  }

  lemma NextSince(syntax: Syntax, deadline: real, t: Trace, e: Event)
    ensures var u := Next(syntax, deadline, t, e);
      && u.since == (if e.Sent? then [] else t.since + [e])
      && u.requests == (if e.Sent? then t.requests + 1 else t.requests)
      && u.tries == (if e.Sent? then Tried(t) + 1 else t.tries)
      && Last(u) == if e.Sent? then None else Some(e)
  {
  }

  lemma StepIs(syntax: Syntax, deadline: real, start: string, log: seq<Event>, j: nat)
    requires j < |log|
    ensures Follow(syntax, deadline, start, log[..j + 1]) == Next(syntax, deadline, Follow(syntax, deadline, start, log[..j]), log[j])
  {
    assert log[..j + 1][..j] == log[..j];
  }

  lemma {:induction false} SinceLatest(syntax: Syntax, deadline: real, start: string, log: seq<Event>, i: nat, j: nat)
    requires i < j <= |log| && log[i].Sent? && forall k | i < k < j :: !log[k].Sent?
    ensures var t := Follow(syntax, deadline, start, log[..j]);
      t.requests > 0 && Last(t) == if i + 1 < j then Some(log[j - 1]) else None
  {
    hide *;
    StepIs(syntax, deadline, start, log, j - 1);
    NextSince(syntax, deadline, Follow(syntax, deadline, start, log[..j - 1]), log[j - 1]);
    if i + 1 < j {
      SinceLatest(syntax, deadline, start, log, i, j - 1);
    }
  }

  /** What has happened since the latest request is the end of the log. */
  lemma {:induction false} SinceIsTheEnd(syntax: Syntax, deadline: real, start: string, log: seq<Event>, j: nat)
    requires j <= |log|
    ensures var t := Follow(syntax, deadline, start, log[..j]);
      && |t.since| <= j && t.since == log[j - |t.since|..j]
      && (j > 0 && !log[j - 1].Sent? ==> t.since != [])
      && Last(t) == if t.since == [] then None else Some(log[j - 1])
  {
    hide *;
    if j == 0 {
      NothingSince(syntax, deadline, start, log);
    } else {
      var t := Follow(syntax, deadline, start, log[..j - 1]);
      StepIs(syntax, deadline, start, log, j - 1);
      NextSince(syntax, deadline, t, log[j - 1]);
      SinceIsTheEnd(syntax, deadline, start, log, j - 1);
      EndGrows(log, j, t.since);
    }
  }

  lemma EndGrows(log: seq<Event>, j: nat, since: seq<Event>)
    requires 0 < j <= |log| && |since| < j && since == log[j - 1 - |since|..j - 1]
    ensures since + [log[j - 1]] == log[j - 1 - |since|..j] && log[j..j] == []
  {
  }

  lemma NothingSince(syntax: Syntax, deadline: real, start: string, log: seq<Event>)
    ensures var t := Follow(syntax, deadline, start, log[..0]); t.since == [] && Last(t) == None
  {
  }

  /**
     Between two requests in a row either a redirect is followed, or the first was answered with a
     status that asks for another try, or its transport failed; and then comes one sleep, as long as
     the server asked for or twice as long as the last time, but within what is left.  Only for an
     answer that asks to come back after no time there is none.
   */
  lemma RetriesAreSpaced(policy: Policy, syntax: Syntax, first: Headers, deadline: real, start: string, log: seq<Event>, i: nat, j: nat)
    requires policy.Valid() && Lawful(policy, syntax, first, deadline, start, log) && i < j < |log|
    requires log[i].Sent? && log[j].Sent? && forall k | i < k < j :: !log[k].Sent?
    ensures i + 1 < j
    ensures !log[j - 1].Redirected? ==>
      var tries := Follow(syntax, deadline, start, log[..j]).tries;
      && 1 <= tries < policy.maxAttempts
      && (log[j - 1].Got? || (log[j - 1].Slept? && i + 1 < j - 1))
      && var why := if log[j - 1].Slept? then log[j - 2] else log[j - 1];
      && (why.Got? || why == BrokeOff(TransportTimeout) || why == BrokeOff(NetworkFault))
      && (why.Got? ==> why.status in policy.retryable && why.status !in {301, 302, 303, 304, 307, 308})
      && (log[j - 1].Got? ==> why.retryAfter == Some(0.0))
      && (log[j - 1].Slept? ==>
            var left := deadline - log[j - 1].at;
            var doubled := policy.baseDelay * if tries == 1 then 1.0 else 2.0;
            log[j - 1].seconds ==
              if why.Got? && why.retryAfter.Some? && 0.0 <= why.retryAfter.value <= left then why.retryAfter.value
              else if doubled < left then doubled else left)
  {
    hide *;
    var t := Follow(syntax, deadline, start, log[..j]);
    PermittedAt(policy, syntax, first, deadline, start, log, j);
    SinceLatest(syntax, deadline, start, log, i, j);
    SentAfter(policy, syntax, first, deadline, t, log[j]);
    if log[j - 1].Slept? {
      var before := Follow(syntax, deadline, start, log[..j - 1]);
      PermittedAt(policy, syntax, first, deadline, start, log, j - 1);
      StepIs(syntax, deadline, start, log, j - 1);
      NextSince(syntax, deadline, before, log[j - 1]);
      SinceLatest(syntax, deadline, start, log, i, j - 1);
      SleptAfter(policy, syntax, first, deadline, before, log[j - 1]);
    }
  }

  lemma SentAfter(policy: Policy, syntax: Syntax, first: Headers, deadline: real, t: Trace, e: Event)
    requires e.Sent? && Permitted(policy, syntax, first, deadline, t, e) && t.requests > 0
    ensures Last(t).Some? && var last := Last(t).value;
      && (last.Redirected? || last.Slept? || last.Got?)
      && (last.Got? ==> 1 <= t.tries < policy.maxAttempts && last.status in policy.retryable
                        && last.status !in {301, 302, 303, 304, 307, 308} && last.retryAfter == Some(0.0))
  {
    hide HeadersNow;
  }

  lemma SleptAfter(policy: Policy, syntax: Syntax, first: Headers, deadline: real, t: Trace, e: Event)
    requires policy.Valid() && e.Slept? && Permitted(policy, syntax, first, deadline, t, e)
    ensures 1 <= t.tries < policy.maxAttempts
    ensures Last(t).Some? && var why := Last(t).value;
      && (why.Got? || why == BrokeOff(TransportTimeout) || why == BrokeOff(NetworkFault))
      && (why.Got? ==> why.status in policy.retryable && why.status !in {301, 302, 303, 304, 307, 308})
      && var left := deadline - e.at;
      var doubled := policy.baseDelay * if t.tries == 1 then 1.0 else 2.0;
      e.seconds ==
        if why.Got? && why.retryAfter.Some? && 0.0 <= why.retryAfter.value <= left then why.retryAfter.value
        else if doubled < left then doubled else left
  {
    assert Pow2(0) == 1.0 && Pow2(1) == 2.0;
    hide HeadersNow;
  }

  /** Where the tries for the present target begin. */
  lemma {:induction false} TriesBegin(policy: Policy, syntax: Syntax, first: Headers, deadline: real, start: string, log: seq<Event>, j: nat)
    returns (k: nat)
    requires Lawful(policy, syntax, first, deadline, start, log) && j <= |log|
    ensures k <= j && (k == 0 || log[k - 1].Redirected?)
    ensures forall m | k <= m < j && log[m].Redirected? :: m + 1 < j && log[m + 1].BrokeOff?
    ensures Tried(Follow(syntax, deadline, start, log[..j])) == SentIn(log, k, j)
  {
    hide *;
    k := 0;
    if j == 0 {
      NothingTried(syntax, deadline, start, log);
    } else {
      var t := Follow(syntax, deadline, start, log[..j - 1]);
      PermittedAt(policy, syntax, first, deadline, start, log, j - 1);
      StepIs(syntax, deadline, start, log, j - 1);
      if log[j - 1].Redirected? {
        NextSince(syntax, deadline, t, log[j - 1]);
        StartsAnew(Next(syntax, deadline, t, log[j - 1]));
        SentIs(log, j, j);
        return j;
      }
      if log[j - 1].BrokeOff? && j > 1 && log[j - 2].Redirected? {
        k := TriesBegin(policy, syntax, first, deadline, start, log, j - 2);
        PermittedAt(policy, syntax, first, deadline, start, log, j - 2);
        StepIs(syntax, deadline, start, log, j - 2);
        BreaksOff(policy, syntax, first, deadline, Follow(syntax, deadline, start, log[..j - 2]), log[j - 2], log[j - 1]);
        SentIs(log, k, j);
        SentIs(log, k, j - 1);
      } else {
        k := TriesBegin(policy, syntax, first, deadline, start, log, j - 1);
        SinceIsTheEnd(syntax, deadline, start, log, j - 1);
        GoesOn(policy, syntax, first, deadline, t, log[j - 1]);
        SentIs(log, k, j);
      }
    }
  }

  lemma NothingTried(syntax: Syntax, deadline: real, start: string, log: seq<Event>)
    ensures Tried(Follow(syntax, deadline, start, log[..0])) == 0 == SentIn(log, 0, 0)
  {
  }

  lemma SentIs(log: seq<Event>, k: nat, j: nat)
    requires j <= |log|
    ensures SentIn(log, k, j) == if j <= k then 0 else SentIn(log, k, j - 1) + if log[j - 1].Sent? then 1 else 0
  {
  }

  lemma StartsAnew(t: Trace)
    requires Last(t).Some? && Last(t).value.Redirected?
    ensures Tried(t) == 0
  {
  }

  lemma BreaksOff(policy: Policy, syntax: Syntax, first: Headers, deadline: real, t: Trace, e: Event, f: Event)
    requires e.Redirected? && f.BrokeOff? && Permitted(policy, syntax, first, deadline, t, e)
    ensures Tried(Next(syntax, deadline, Next(syntax, deadline, t, e), f)) == Tried(t)
  {
  }

  lemma GoesOn(policy: Policy, syntax: Syntax, first: Headers, deadline: real, t: Trace, e: Event)
    requires !e.Redirected? && Permitted(policy, syntax, first, deadline, t, e)
    requires !(e.BrokeOff? && Last(t).Some? && Last(t).value.Redirected?)
    ensures Tried(Next(syntax, deadline, t, e)) == Tried(t) + if e.Sent? then 1 else 0
    ensures Last(t).Some? && Last(t).value.Redirected? ==> e.Sent?
  {
    hide HeadersNow;
  }

  /**
     A call gives up only when its tries are used up: since the last redirect that it followed it has
     sent as many requests as it may, and the last one was answered with a status that asks for
     another try, or its transport failed.
   */
  lemma GivesUpAfterAllTries(policy: Policy, syntax: Syntax, world: World, c: Call) returns (k: nat)
    requires Conforms(policy, syntax, world, c) && c.result == Err(RetryExhausted)
    ensures k <= |c.log| && SentIn(c.log, k, |c.log|) == policy.maxAttempts
    ensures k == 0 || c.log[k - 1].Redirected?
    ensures forall m | k <= m < |c.log| && c.log[m].Redirected? :: m + 1 < |c.log| && c.log[m + 1].BrokeOff?
    ensures c.log != [] && var last := c.log[|c.log| - 1];
      || last == BrokeOff(NetworkFault)
      || (last.Got? && last.status in policy.retryable && last.status !in {301, 302, 303, 304, 307, 308})
  {
    hide Lawful, Follow, Truthful, SentIn, CacheAfter, SourcesAfter, StoredFits, WellFormed;
    var first := FirstHeaders(syntax, c.request, Lookup(c.cache0, syntax.key(c.request.url, c.request.accept)));
    assert c.log[..|c.log|] == c.log;
    k := TriesBegin(policy, syntax, first, c.deadline, c.request.url, c.log, |c.log|);
    SinceIsTheEnd(syntax, c.deadline, c.request.url, c.log, |c.log|);
  }

  lemma {:induction false} RequestsAre(syntax: Syntax, deadline: real, start: string, log: seq<Event>, j: nat)
    requires j <= |log|
    ensures Follow(syntax, deadline, start, log[..j]).requests == SentIn(log, 0, j)
  {
    hide *;
    if j == 0 {
      NoRequests(syntax, deadline, start, log);
    } else {
      StepIs(syntax, deadline, start, log, j - 1);
      NextSince(syntax, deadline, Follow(syntax, deadline, start, log[..j - 1]), log[j - 1]);
      SentIs(log, 0, j);
      RequestsAre(syntax, deadline, start, log, j - 1);
    }
  }

  lemma NoRequests(syntax: Syntax, deadline: real, start: string, log: seq<Event>)
    ensures Follow(syntax, deadline, start, log[..0]).requests == 0 == SentIn(log, 0, 0)
  {
  }

  /** The requests in the log of a call: at most the tries for each target, and what a success reports. */
  lemma FewRequests(policy: Policy, syntax: Syntax, world: World, c: Call)
    requires Conforms(policy, syntax, world, c)
    ensures SentIn(c.log, 0, |c.log|) <= (policy.maxRedirects + 1) * policy.maxAttempts
    ensures c.result.Ok? ==> c.result.value.attempts == SentIn(c.log, 0, |c.log|)
  {
    hide Lawful, Follow, Truthful, CacheAfter, SourcesAfter, StoredFits, WellFormed, EndsFor;
    assert c.log[..|c.log|] == c.log;
    RequestsAre(syntax, c.deadline, c.request.url, c.log, |c.log|);
  }

  /** A call succeeds with the status of its last response, and only with one that is not to be followed or repeated. */
  lemma FinalStatus(policy: Policy, syntax: Syntax, world: World, c: Call)
    requires Conforms(policy, syntax, world, c) && c.result.Ok?
    ensures var status := c.result.value.status;
      var n := |c.log| - if 200 <= status < 300 then 2 else 1;
      && 0 <= n && c.log[n].Got? && c.log[n].status == status
      && (status == 304 ==> syntax.key(c.request.url, c.request.accept) in c.cache0)
      && (status != 304 ==>
            && status !in {301, 302, 303, 307, 308} && status !in policy.retryable
            && (c.log[n].declared.Some? ==> c.log[n].declared.value <= policy.maxBytes)
            && |c.result.value.body| == c.log[n].size <= policy.maxBytes)
  {
    hide Lawful, Follow, Truthful, CacheAfter, SourcesAfter, StoredFits, WellFormed, SucceedsFor;
    assert c.log[..|c.log|] == c.log;
    var t := Follow(syntax, c.deadline, c.request.url, c.log);
    SinceIsTheEnd(syntax, c.deadline, c.request.url, c.log, |c.log|);
    SuccessMeans(policy, syntax.key(c.request.url, c.request.accept) in c.cache0, t, c.result.value);
  }

  lemma SuccessMeans(policy: Policy, known: bool, t: Trace, r: HttpResult)
    requires SucceedsFor(policy, known, t, r)
    ensures |t.since| == (if 200 <= r.status < 300 then 2 else 1) && t.since[0].Got? && t.since[0].status == r.status
    ensures r.status == 304 ==> known
    ensures r.status != 304 ==>
      && r.status !in {301, 302, 303, 307, 308} && r.status !in policy.retryable
      && (t.since[0].declared.Some? ==> t.since[0].declared.value <= policy.maxBytes)
      && |r.body| == t.since[0].size <= policy.maxBytes
  {
  }

  /**
     Why a call fails: the last response, or the failure of the transport, decides which error there
     is, unless the deadline has come.
   */
  lemma FailuresHaveCauses(policy: Policy, syntax: Syntax, world: World, c: Call)
    requires Conforms(policy, syntax, world, c) && c.result.Err?
    ensures c.result.failure == ResponseTooLarge || c.result.failure == InvalidNotModified ==> c.log != [] && c.log[|c.log| - 1].Got?
    ensures c.result.failure == ResponseTooLarge ==>
      var last := c.log[|c.log| - 1];
      && last.status !in {301, 302, 303, 304, 307, 308} && last.status !in policy.retryable
      && ((last.declared.Some? && last.declared.value > policy.maxBytes) || last.size > policy.maxBytes)
    ensures c.result.failure == InvalidNotModified ==>
      c.log[|c.log| - 1].status == 304 && syntax.key(c.request.url, c.request.accept) !in c.cache0
    ensures c.log != [] && c.log[|c.log| - 1].Got? && c.ended < c.deadline ==>
      var last, t := c.log[|c.log| - 1], Follow(syntax, c.deadline, c.request.url, c.log);
      && (last.status in {301, 302, 303, 307, 308} ==>
            && c.result.failure == RedirectError
            && (last.location.None? || t.redirects >= policy.maxRedirects || syntax.join(t.url, last.location.value).None?))
      && (last.status == 304 ==> c.result.failure == InvalidNotModified)
      && (last.status !in {301, 302, 303, 304, 307, 308} && last.status in policy.retryable ==>
            c.result.failure == RetryExhausted || last.retryAfter == Some(0.0))
      && (last.status !in {301, 302, 303, 304, 307, 308} && last.status !in policy.retryable ==>
            c.result.failure == ResponseTooLarge || c.result.failure == TimeoutError)
    ensures c.log != [] && c.log[|c.log| - 1].BrokeOff? && c.ended < c.deadline ==>
      c.result.failure == match c.log[|c.log| - 1].fault
                          case TransportTimeout => TimeoutError
                          case NetworkFault => RetryExhausted
                          case OtherHttpFault => PolicyError
  {
    hide *;
    var t := Follow(syntax, c.deadline, c.request.url, c.log);
    LastOfCall(policy, syntax, world, c);
    FailureCauses(policy, syntax, syntax.key(c.request.url, c.request.accept) in c.cache0, t, c.result.failure, c.ended >= c.deadline);
  }

  lemma LastOfCall(policy: Policy, syntax: Syntax, world: World, c: Call)
    requires Conforms(policy, syntax, world, c)
    ensures var t := Follow(syntax, c.deadline, c.request.url, c.log);
      && (c.result.Err? ==>
            FailedFor(policy, syntax, syntax.key(c.request.url, c.request.accept) in c.cache0, t, c.result.failure, c.ended >= c.deadline))
      && (t.since != [] ==> c.log != [] && Last(t) == Some(c.log[|c.log| - 1]))
      && (t.since == [] ==> Last(t) == None)
      && (c.log != [] && !c.log[|c.log| - 1].Sent? ==> t.since != [])
  {
    assert c.log[..|c.log|] == c.log;
    SinceIsTheEnd(syntax, c.deadline, c.request.url, c.log, |c.log|);
    hide Lawful, Follow, Truthful, CacheAfter, SourcesAfter, StoredFits, WellFormed, FailedFor, Last;
  }

  lemma FailureCauses(policy: Policy, syntax: Syntax, known: bool, t: Trace, f: Failure, over: bool)
    requires FailedFor(policy, syntax, known, t, f, over)
    requires Last(t) == None <==> t.since == []
    ensures f == ResponseTooLarge || f == InvalidNotModified ==> Last(t).Some? && Last(t).value.Got?
    ensures f == ResponseTooLarge ==>
      var last := Last(t).value;
      && last.status !in {301, 302, 303, 304, 307, 308} && last.status !in policy.retryable
      && ((last.declared.Some? && last.declared.value > policy.maxBytes) || last.size > policy.maxBytes)
    ensures f == InvalidNotModified ==> Last(t).value.status == 304 && !known
    ensures Last(t).Some? && Last(t).value.Got? && !over ==>
      var last := Last(t).value;
      && (last.status in {301, 302, 303, 307, 308} ==>
            && f == RedirectError
            && (last.location.None? || t.redirects >= policy.maxRedirects || syntax.join(t.url, last.location.value).None?))
      && (last.status == 304 ==> f == InvalidNotModified)
      && (last.status !in {301, 302, 303, 304, 307, 308} && last.status in policy.retryable ==>
            f == RetryExhausted || last.retryAfter == Some(0.0))
      && (last.status !in {301, 302, 303, 304, 307, 308} && last.status !in policy.retryable ==>
            f == ResponseTooLarge || f == TimeoutError)
    ensures Last(t).Some? && Last(t).value.BrokeOff? && !over ==>
      f == match Last(t).value.fault
           case TransportTimeout => TimeoutError
           case NetworkFault => RetryExhausted
           case OtherHttpFault => PolicyError
  {
  }

  /** A redirect is followed only for a status that asks for it, to where its `Location` leads, and not too often. */
  lemma RedirectsAreAnswered(policy: Policy, syntax: Syntax, first: Headers, deadline: real, start: string, log: seq<Event>, j: nat)
    requires Lawful(policy, syntax, first, deadline, start, log) && j < |log| && log[j].Redirected?
    ensures j > 0 && log[j - 1].Got? && log[j - 1].status in {301, 302, 303, 307, 308}
    ensures log[j - 1].location.Some? && syntax.join(log[j].source, log[j - 1].location.value) == Some(log[j].target)
  {
    hide Lawful, Follow, HeadersNow;
    PermittedAt(policy, syntax, first, deadline, start, log, j);
    SinceIsTheEnd(syntax, deadline, start, log, j);
  }

  // --- the cache over sequences of calls ---

  /** Every cached entry is what its source held when it was stored. */
  ghost predicate Honest(world: World, cache: map<string, Representation>, sources: map<string, Source>) {
    && (forall k | k in cache :: k in sources && cache[k] == world.rep(sources[k].url, sources[k].at))
    && (forall k | k in sources :: k in cache)
  }

  ghost predicate Small(policy: Policy, cache: map<string, Representation>) {
    forall k | k in cache :: |cache[k].body| <= policy.maxBytes
  }

  /** Validators tell bodies apart, wherever and whenever they were given out. */
  ghost predicate TellingLaw(world: World) {
    forall u, t, v, s | Matches(world.rep(u, t).validators, world.rep(v, s).validators) ::
      world.rep(u, t).body == world.rep(v, s).body
  }

  /** The same, but only for one URL at a time, which is all that an origin promises. */
  ghost predicate TellingPerUrl(world: World) {
    forall u, t, s | Matches(world.rep(u, t).validators, world.rep(u, s).validators) ::
      world.rep(u, t).body == world.rep(u, s).body
  }

  /** No two URLs ever hold the same body. */
  ghost predicate Separate(world: World) {
    forall u, t, v, s | u != v :: world.rep(u, t).body != world.rep(v, s).body
  }

  /** Calls of one client, one after the other, from an empty cache. */
  ghost predicate Chained(policy: Policy, syntax: Syntax, world: World, calls: seq<Call>) {
    && (forall k | 0 <= k < |calls| :: Conforms(policy, syntax, world, calls[k]))
    && (calls != [] ==> calls[0].cache0 == map[] && calls[0].sources0 == map[])
    && (forall k | 0 < k < |calls| :: calls[k].cache0 == calls[k - 1].cache1 && calls[k].sources0 == calls[k - 1].sources1)
  }

  lemma CallKeepsHonest(policy: Policy, syntax: Syntax, world: World, c: Call)
    requires Conforms(policy, syntax, world, c) && Honest(world, c.cache0, c.sources0)
    ensures Honest(world, c.cache1, c.sources1)
    ensures Small(policy, c.cache0) ==> Small(policy, c.cache1)
  {
    hide Lawful, Follow, Truthful;
  }

  lemma {:induction false} ChainIsHonest(policy: Policy, syntax: Syntax, world: World, calls: seq<Call>, k: nat)
    requires Chained(policy, syntax, world, calls) && k < |calls|
    ensures Honest(world, calls[k].cache0, calls[k].sources0)
  {
    if k > 0 {
      hide Conforms, Honest;
      ChainIsHonest(policy, syntax, world, calls, k - 1);
      CallKeepsHonest(policy, syntax, world, calls[k - 1]);
    }
  }

  predicate HasBody(r: Result<HttpResult>) { r.Ok? && (r.value.status == 304 || Success(r.value.status)) }

  function KeyOf(syntax: Syntax, c: Call): string { syntax.key(c.request.url, c.request.accept) }

  /** With validators that tell bodies apart every call of a sequence gives what the origin holds. */
  lemma SequenceIsTruthful(policy: Policy, syntax: Syntax, world: World, calls: seq<Call>, k: nat)
    requires Chained(policy, syntax, world, calls) && k < |calls| && TellingLaw(world) && HasBody(calls[k].result)
    ensures calls[k].result.value.body == world.rep(calls[k].result.value.url, calls[k].at).body
  {
    ChainIsHonest(policy, syntax, world, calls, k);
    assert Conforms(policy, syntax, world, calls[k]);
    hide Lawful, Follow;
  }

  /**
     The cache cannot be noticed: a client with an empty cache that makes the same request and is
     answered from the same URL at the same time gets the same body, and never a 304.
   */
  lemma CacheIsInvisible(policy: Policy, syntax: Syntax, world: World, calls: seq<Call>, k: nat, alone: Call)
    requires Chained(policy, syntax, world, calls) && k < |calls| && TellingLaw(world)
    requires Conforms(policy, syntax, world, alone) && alone.cache0 == map[] && alone.request == calls[k].request
    requires HasBody(calls[k].result) && HasBody(alone.result)
    requires alone.result.value.url == calls[k].result.value.url && alone.at == calls[k].at
    ensures alone.result.value.status != 304 && alone.result.value.body == calls[k].result.value.body
  {
    SequenceIsTruthful(policy, syntax, world, calls, k);
    hide Lawful, Follow;
  }

  /**
     With validators that only tell apart the bodies of one URL, a revalidated body is right when
     the entry was stored from the URL that answers; and when no two URLs hold the same body, only
     then.  The code keys the cache by the requested URL, so after a redirect has moved it may not be.
   */
  lemma RightIffSameSource(policy: Policy, syntax: Syntax, world: World, calls: seq<Call>, k: nat)
    requires Chained(policy, syntax, world, calls) && k < |calls| && TellingPerUrl(world)
    requires calls[k].result.Ok? && calls[k].result.value.status == 304
    ensures var r := calls[k].result.value; var key := KeyOf(syntax, calls[k]);
      && key in calls[k].sources0
      && (calls[k].sources0[key].url == r.url ==> r.body == world.rep(r.url, calls[k].at).body)
      && (Separate(world) ==> (r.body == world.rep(r.url, calls[k].at).body <==> calls[k].sources0[key].url == r.url))
  {
    ChainIsHonest(policy, syntax, world, calls, k);
    assert Conforms(policy, syntax, world, calls[k]);
    hide Lawful, Follow;
  }

  /**
     Over all such worlds: a matching validator from `source` makes sure of the body at `answering`
     exactly when they are the same URL.
   */
  lemma CertainIffSameSource(source: string, answering: string)
    ensures (forall world: World, t: real, s: real ::
      TellingPerUrl(world) && Matches(world.rep(source, t).validators, world.rep(answering, s).validators) ==>
        world.rep(source, t).body == world.rep(answering, s).body) <==> source == answering
  {
    if source != answering {
      var world := World((u, t) => Representation(if u == source then [0] else [1], None, TAG));
      assert TellingPerUrl(world) && Matches(world.rep(source, 0.0).validators, world.rep(answering, 0.0).validators);
      assert world.rep(source, 0.0).body != world.rep(answering, 0.0).body;
    }
  }

  // --- two runs ---

  const TAG := Validators(Some("1"), None)

  function PlainSyntax(bad: string): Syntax {
    Syntax(
      u => Some("h"), u => Some(("h", 443)), (base, location) => Some(location),
      n => false, n => false, n => true, v => v != bad, (u, accept) => u)
  }

  const PLAIN_POLICY := Policy(true, true, {"h"}, 30.0, 1.0, 10, 3, 3, {503})

  /** "r" redirects to "a" first and to "b" later; both give out the tag "1". */
  function MovingWorld(): World { World((u, t) => Representation(if u == "a" then [0] else [1], None, TAG)) }

  function MovingScript(n: nat): Response {
    var rep := Representation([], None, NO_VALIDATORS);
    if n == 0 then Response(302, Some("a"), None, None, true, rep)
    else if n == 2 then Response(302, Some("b"), None, None, true, rep)
    else Response(200, None, None, None, true, rep)
  }

  lemma MovingFirst(c: SafeHttpClient, deadline: real, at: real)
    requires c.policy == PLAIN_POLICY && c.syntax == PlainSyntax("bad") && c.world == MovingWorld() && c.script == Some(MovingScript)
    requires at < deadline
    ensures c.Scripted("r", NO_VALIDATORS, None, deadline, at, 0, 0, 0, 0) == Ending(Ok(HttpResult(200, [0], "a", 2, TAG)), 2, at)
  {
    assert c.Scripted("a", NO_VALIDATORS, None, deadline, at, 1, 1, 1, 0) == Ending(Ok(HttpResult(200, [0], "a", 2, TAG)), 2, at);
  }

  lemma MovingSecond(c: SafeHttpClient, cached: Representation, deadline: real, at: real)
    requires c.policy == PLAIN_POLICY && c.syntax == PlainSyntax("bad") && c.world == MovingWorld() && c.script == Some(MovingScript)
    requires at < deadline && cached == Representation([0], None, TAG)
    ensures c.Scripted("r", TAG, Some(cached), deadline, at, 2, 0, 0, 0) == Ending(Ok(HttpResult(304, [0], "b", 2, TAG)), 4, at)
  {
    assert c.Scripted("b", TAG, Some(cached), deadline, at, 3, 1, 1, 0) == Ending(Ok(HttpResult(304, [0], "b", 2, TAG)), 4, at);
  }

  /** The redirect has moved between two calls: the second one returns the body that "a" held. */
  method StaleBody() returns (second: Result<HttpResult>, ghost at: real)
    ensures TellingPerUrl(MovingWorld())
    ensures second.Ok? && second.value.status == 304 && second.value.url == "b"
    ensures second.value.body != MovingWorld().rep("b", at).body
  {
    var client := new SafeHttpClient(PLAIN_POLICY, PlainSyntax("bad"), MovingWorld(), Some(MovingScript));
    var request := Request("r", "text/plain", map[]);
    hide Lawful, Follow, SafeHttpClient.Scripted;
    MovingFirst(client, client.now + 30.0, client.now);
    var first: Result<HttpResult>;
    first, at := client.Get(request);
    MovingSecond(client, client.cache["r"], client.now + 30.0, client.now);
    second, at := client.Get(request);
  }

  /**
     A redirect is taken, and then closing its response fails: the tries are not counted anew.  With
     one try for each target the call gives up on the new target without having asked it once.
   */
  method BrokenRedirect() returns (client: SafeHttpClient, r: Option<Result<HttpResult>>)
    ensures fresh(client) && client.policy == PLAIN_POLICY.(maxAttempts := 1) && r == Some(Err(RetryExhausted))
    ensures |client.log| == 4 && client.log[0].Sent? && client.log[0].url == "r" && client.log[2] == Redirected("r", "a")
    ensures client.log[3] == BrokeOff(NetworkFault) && SentIn(client.log, 3, 4) == 0 && client.State().url == "a"
  {
    hide Lawful, CacheAfter, SourcesAfter, Follow, StoredFits, SafeHttpClient.InOrder;
    var deadline;
    client, deadline := OneRedirect();
    var moved, next;
    r, moved, next := client.GoOn(Cursor("a", Headers(map[], NO_VALIDATORS), 1, 1, 1), Faulted(NetworkFault), None, deadline);
    assert client.log[..4] == client.log;
    NoneSent(client.log);
  }

  method OneRedirect() returns (client: SafeHttpClient, deadline: real)
    ensures fresh(client) && client.policy == PLAIN_POLICY.(maxAttempts := 1) && client.InOrder() && client.call.deadline == deadline
    ensures |client.log| == 3 && client.log[0].Sent? && client.log[0].url == "r" && client.log[2] == Redirected("r", "a")
    ensures var t := client.State(); !t.late && t.tries == 1 && t.requests == 1 && t.url == "a" && Last(t) == Some(Redirected("r", "a"))
  {
    var first := Headers(map[], NO_VALIDATORS);
    client := new SafeHttpClient(PLAIN_POLICY.(maxAttempts := 1), PlainSyntax("bad"), MovingWorld(), None);
    deadline := client.now + 30.0;
    client.call := CallInfo("r", first, deadline, "r", map[], map[]);
    client.log := [];
    client.Untouched();
    hide Lawful, CacheAfter, SourcesAfter, Follow, StoredFits, SafeHttpClient.InOrder;
    client.Note(Sent("r", "h", first, client.now, Some(client.now)));
    client.Note(Got(302, Some("a"), None, None, 0));
    client.Note(Redirected("r", "a"));
  }

  lemma NoneSent(log: seq<Event>)
    requires |log| == 4 && !log[3].Sent?
    ensures SentIn(log, 3, 4) == 0
  {
  }

  /** One origin, which gives out a tag that the header check refuses. */
  function TaggedWorld(): World { World((u, t) => Representation([7], None, Validators(Some("bad"), None))) }

  function AlwaysOk(n: nat): Response { Response(200, None, None, None, true, Representation([], None, NO_VALIDATORS)) }

  lemma TaggedAnswer(c: SafeHttpClient, deadline: real, at: real, n: nat)
    requires c.policy == PLAIN_POLICY && c.syntax == PlainSyntax("bad") && c.world == TaggedWorld() && c.script == Some(AlwaysOk)
    requires at < deadline
    ensures c.Scripted("r", NO_VALIDATORS, None, deadline, at, n, 0, 0, 0).result == Ok(HttpResult(200, [7], "r", 1, Validators(Some("bad"), None)))
  {
  }

  /** A complete response is stored with whatever tag it has; then the same request is refused unsent. */
  method RefusedByItsOwnCache() returns (first: Result<HttpResult>, second: Result<HttpResult>)
    ensures first.Ok? && first.value.status == 200 && second == Err(InvalidHeader)
  {
    var client := new SafeHttpClient(PLAIN_POLICY, PlainSyntax("bad"), TaggedWorld(), Some(AlwaysOk));
    var request := Request("r", "text/plain", map[]);
    hide Lawful, Follow, SafeHttpClient.Scripted;
    TaggedAnswer(client, client.now + 30.0, client.now, 0);
    ghost var at;
    first, at := client.Get(request);
    second, at := client.Get(request);
  }

  /**
     In a sequence of calls, a request that an empty cache lets through is refused exactly when what
     its cached entry was stored from had validators that fail the header check.
   */
  lemma RefusedIff(policy: Policy, syntax: Syntax, world: World, calls: seq<Call>, k: nat)
    requires Chained(policy, syntax, world, calls) && k < |calls| && policy.enabled && policy.identified
    requires WellFormed(syntax, calls[k].request, None)
    ensures var key, sources := KeyOf(syntax, calls[k]), calls[k].sources0;
      calls[k].result == Err(InvalidHeader) <==>
        key in sources && !Sendable(syntax, world.rep(sources[key].url, sources[key].at).validators)
  {
    ChainIsHonest(policy, syntax, world, calls, k);
    assert Conforms(policy, syntax, world, calls[k]);
    hide Lawful, Follow;
  }

  // --- with and without a cache ---

  /** The caller cannot tell: the same failure, or the same URL and body, a 304 standing for a 2xx. */
  predicate SameToTheCaller(a: Result<HttpResult>, b: Result<HttpResult>) {
    if a.Err? || b.Err? then a == b else
      && a.value.url == b.value.url && a.value.body == b.value.body && a.value.attempts == b.value.attempts
      && (a.value.status == b.value.status || (a.value.status == 304 && Success(b.value.status)))
  }

  /** Servers that answer 304 only for a request they heed, and announce no length above the limit. */
  ghost predicate HonestServers(policy: Policy, script: nat -> Response) {
    && (forall n :: script(n).status != 304)
    && (forall n :: script(n).declaredLength.Some? ==> script(n).declaredLength.value <= policy.maxBytes)
    && (forall status | status in policy.retryable :: !Success(status))
  }

  ghost predicate SameSetting(a: SafeHttpClient, b: SafeHttpClient) {
    && a.policy == b.policy && a.syntax == b.syntax && a.world == b.world
    && a.script.Some? && a.script == b.script
  }

  /** What a client may have cached: something an origin held, within the limit. */
  ghost predicate CachedOk(policy: Policy, world: World, cached: Option<Representation>) {
    cached.Some? ==> |cached.value.body| <= policy.maxBytes && exists u, t :: cached.value == world.rep(u, t)
  }

  function SentFor(cached: Option<Representation>): Validators { if cached.Some? then cached.value.validators else NO_VALIDATORS }

  /** One response, to a request with the validators of a cached entry and to one without. */
  lemma SameDecision(a: SafeHttpClient, b: SafeHttpClient, url: string, cached: Option<Representation>, at: real, n: nat,
                     attempts: nat, redirects: nat, lastTry: bool)
    requires SameSetting(a, b) && HonestServers(a.policy, a.script.value) && TellingLaw(a.world) && CachedOk(a.policy, a.world, cached)
    ensures var r, q := a.Honestly(url, SentFor(cached), at, a.script.value(n)), b.Honestly(url, NO_VALIDATORS, at, b.script.value(n));
      var e, f := a.Decided(r, url, cached, attempts, redirects, lastTry), b.Decided(q, url, None, attempts, redirects, lastTry);
      && r.location == q.location && (e.Moved? ==> r.location.Some?)
      && (if e.Answered? then f.Answered? && SameToTheCaller(Ok(e.result), Ok(f.result)) else e == f)
  {
    var response := a.script.value(n);
    if Success(response.status) && cached.Some? && Matches(cached.value.validators, a.world.rep(url, at).validators) {
      var u, t :| cached.value == a.world.rep(u, t);
      assert cached.value.body == a.world.rep(url, at).body;
    }
  }

  /**
     In lockstep: against the same servers a call with a cached entry and one with an empty cache
     make the same requests at the same times and end the same to the caller.
   */
  lemma {:induction false} Lockstep(a: SafeHttpClient, b: SafeHttpClient, url: string, cached: Option<Representation>, deadline: real,
                                    at: real, n: nat, attempts: nat, redirects: nat, tries: nat)
    requires SameSetting(a, b) && HonestServers(a.policy, a.script.value) && TellingLaw(a.world) && CachedOk(a.policy, a.world, cached)
    requires redirects <= a.policy.maxRedirects && tries < a.policy.maxAttempts
    ensures var e := a.Scripted(url, SentFor(cached), cached, deadline, at, n, attempts, redirects, tries);
      var f := b.Scripted(url, NO_VALIDATORS, None, deadline, at, n, attempts, redirects, tries);
      e.served == f.served && e.now == f.now && SameToTheCaller(e.result, f.result)
    decreases a.policy.maxRedirects - redirects, a.policy.maxAttempts - tries
  {
    hide SafeHttpClient.Honestly, SafeHttpClient.Decided, SafeHttpClient.Scripted, HonestServers, TellingLaw, CachedOk, SafeHttpClient.Delay;
    if at >= deadline || !a.Reachable(url) {
      NothingSent(a, b, url, cached, deadline, at, n, attempts, redirects, tries);
    } else {
      var lastTry := tries + 1 >= a.policy.maxAttempts;
      SameDecision(a, b, url, cached, at, n, attempts + 1, redirects, lastTry);
      var r, q := a.Honestly(url, SentFor(cached), at, a.script.value(n)), b.Honestly(url, NO_VALIDATORS, at, b.script.value(n));
      var e := a.Decided(r, url, cached, attempts + 1, redirects, lastTry);
      var f := b.Decided(q, url, None, attempts + 1, redirects, lastTry);
      var target := if e.Moved? then a.syntax.join(url, r.location.value) else None;
      var cursor := Cursor(url, Headers(map[], NO_VALIDATORS), attempts, redirects, tries);
      a.OneRound(cursor, SentFor(cached), cached, deadline, at, n, e, target);
      b.OneRound(cursor, NO_VALIDATORS, None, deadline, at, n, f, target);
      match e
      case Moved =>
        Lockstep(a, b, target.value, cached, deadline, at, n + 1, attempts + 1, redirects + 1, 0);
      case Again(retryAfter) =>
        var delay := a.Delay(tries, retryAfter, deadline - at);
        SameDelay(a, b, tries, retryAfter, deadline - at);
        Lockstep(a, b, url, cached, deadline, if delay > 0.0 then at + delay else at, n + 1, attempts + 1, redirects, tries + 1);
      case _ =>
    }
  }

  lemma NothingSent(a: SafeHttpClient, b: SafeHttpClient, url: string, cached: Option<Representation>, deadline: real,
                    at: real, n: nat, attempts: nat, redirects: nat, tries: nat)
    requires SameSetting(a, b) && redirects <= a.policy.maxRedirects && tries < a.policy.maxAttempts
    requires at >= deadline || !a.Reachable(url)
    ensures a.Scripted(url, SentFor(cached), cached, deadline, at, n, attempts, redirects, tries)
         == b.Scripted(url, NO_VALIDATORS, None, deadline, at, n, attempts, redirects, tries)
    ensures a.Scripted(url, SentFor(cached), cached, deadline, at, n, attempts, redirects, tries).result.Err?
  {
  }

  lemma SameDelay(a: SafeHttpClient, b: SafeHttpClient, tries: nat, retryAfter: Option<real>, left: real)
    requires SameSetting(a, b)
    ensures a.Delay(tries, retryAfter, left) == b.Delay(tries, retryAfter, left)
  {
  }

  /** One request, with the cache and with an empty cache. */
  method GetBoth(a: SafeHttpClient, b: SafeHttpClient, request: Request)
    returns (with: Result<HttpResult>, without: Result<HttpResult>)
    requires a != b && SameSetting(a, b) && a.policy.Valid() && a.policy.enabled && a.policy.identified
    requires TellingLaw(a.world) && HonestServers(a.policy, a.script.value) && WellFormed(a.syntax, request, None)
    requires forall u, t :: Sendable(a.syntax, a.world.rep(u, t).validators)
    requires a.now == b.now && a.served == b.served && Honest(a.world, a.cache, a.sources) && Small(a.policy, a.cache)
    modifies a, b
    ensures a.now == b.now && a.served == b.served && Honest(a.world, a.cache, a.sources) && Small(a.policy, a.cache)
    ensures SameToTheCaller(with, without)
  {
    hide Lawful, Follow, TellingLaw, HonestServers, Conforms, SameToTheCaller, Permitted, Without, SafeHttpClient.Scripted;
    ghost var cache0, sources0, now0, served0 := a.cache, a.sources, a.now, a.served;
    ghost var held := Lookup(cache0, a.syntax.key(request.url, request.accept));
    assert CachedOk(a.policy, a.world, held);
    Lockstep(a, b, request.url, held, now0 + a.policy.totalTimeout, now0, served0, 0, 0, 0);
    ghost var atA, atB;
    with, atA := a.Get(request);
    CallKeepsHonest(a.policy, a.syntax, a.world,
                    Call(request, cache0, sources0, a.cache, a.sources, a.log, a.call.deadline, now0, a.now, with, atA));
    b.Clear();
    without, atB := b.Get(request);
  }

  /** Any sequence of requests, with the cache and with an empty cache before every call. */
  method InLockstep(policy: Policy, syntax: Syntax, world: World, script: nat -> Response, requests: seq<Request>)
    returns (cached: seq<Result<HttpResult>>, uncached: seq<Result<HttpResult>>)
    requires policy.Valid() && policy.enabled && policy.identified && TellingLaw(world) && HonestServers(policy, script)
    requires forall r | r in requests :: WellFormed(syntax, r, None)
    requires forall u, t :: Sendable(syntax, world.rep(u, t).validators)
    ensures |cached| == |uncached| == |requests|
    ensures forall k | 0 <= k < |requests| :: SameToTheCaller(cached[k], uncached[k])
  {
    hide TellingLaw, HonestServers, WellFormed, SameToTheCaller;
    var a := new SafeHttpClient(policy, syntax, world, Some(script));
    var b := new SafeHttpClient(policy, syntax, world, Some(script));
    cached, uncached := [], [];
    for k := 0 to |requests|
      invariant SameSetting(a, b) && a.policy == policy && a.syntax == syntax && a.world == world && a.script == Some(script)
      invariant a.now == b.now && a.served == b.served && Honest(world, a.cache, a.sources) && Small(policy, a.cache)
      invariant |cached| == |uncached| == k && forall j | 0 <= j < k :: SameToTheCaller(cached[j], uncached[j])
    {
      var with, without := GetBoth(a, b, requests[k]);
      cached, uncached := cached + [with], uncached + [without];
    }
  }
}
