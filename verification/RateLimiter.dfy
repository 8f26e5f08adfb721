/** The sliding-window rate limiter, against a limiter that never forgets a grant. */
module RateLimiter {

  /** A request from an address, or a tick of the cleanup, at an instant. */
  datatype Event = Allow(ip: string, at: int) | Cleanup(at: int)

  /** The configured limit and the length of the window. */
  datatype Limits = Limits(limit: int, window: int)

  /** The times still inside the window that ends at `now`. */
  function Live(times: seq<int>, now: int, window: int): seq<int> {
    if times == [] then []
    else
      var last := times[|times| - 1];
      Live(times[..|times| - 1], now, window) + if now - last < window then [last] else []
  }

  // ------------------------------------------------------- the reference limiter

  /** Every grant to an address so far: a request is granted when fewer than `limit` grants
      are live. Cleanups do not exist for it. */
  function Grants(es: seq<Event>, ip: string, l: Limits): seq<int> {
    if es == [] then []
    else
      var before, e := Grants(es[..|es| - 1], ip, l), es[|es| - 1];
      if e.Allow? && e.ip == ip && |Live(before, e.at, l.window)| < l.limit then before + [e.at] else before
  }

  /** The number of times in the window `[from, from + window)`. */
  function CountIn(times: seq<int>, from: int, window: int): nat {
    if times == [] then 0
    else
      var last := times[|times| - 1];
      CountIn(times[..|times| - 1], from, window) + if from <= last < from + window then 1 else 0
  }

  lemma {:induction false} GrantsAreBounded(es: seq<Event>, ip: string, l: Limits, at: int)
    requires forall i | 0 <= i < |es| :: es[i].at <= at
    ensures forall i | 0 <= i < |Grants(es, ip, l)| :: Grants(es, ip, l)[i] <= at
    decreases |es|
  {
    if es != [] {
      GrantsAreBounded(es[..|es| - 1], ip, l, at);
    }
  }

  /** What lies in a window containing `now` is live at `now`. */
  lemma {:induction false} WindowIsLive(times: seq<int>, now: int, from: int, window: int)
    requires from <= now < from + window
    ensures CountIn(times, from, window) <= |Live(times, now, window)|
    decreases |times|
  {
    if times != [] {
      WindowIsLive(times[..|times| - 1], now, from, window);
    }
  }

  /** What is live is what lies in the window that ends now. */
  lemma {:induction false} LiveIsWindow(times: seq<int>, now: int, window: int)
    requires forall i | 0 <= i < |times| :: times[i] <= now
    ensures |Live(times, now, window)| == CountIn(times, now - window + 1, window)
    decreases |times|
  {
    if times != [] {
      LiveIsWindow(times[..|times| - 1], now, window);
    }
  }

  /** No window of the configured length ever holds more than `limit` reference grants. */
  lemma {:induction false} GrantsFitWindow(es: seq<Event>, ip: string, l: Limits, from: int)
    ensures CountIn(Grants(es, ip, l), from, l.window) <= if l.limit > 0 then l.limit else 0
    decreases |es|
  {
    if es != [] {
      GrantsFitWindow(es[..|es| - 1], ip, l, from);
      var before, e := Grants(es[..|es| - 1], ip, l), es[|es| - 1];
      if e.Allow? && e.ip == ip && |Live(before, e.at, l.window)| < l.limit {
        assert (before + [e.at])[..|before|] == before;
        if from <= e.at < from + l.window {
          WindowIsLive(before, e.at, from, l.window);
        }
      }
    }
  }

  // ------------------------------------------------------------ the limiter's memory

  function TimesOf(requests: map<string, seq<int>>, ip: string): seq<int> {
    if ip in requests then requests[ip] else []
  }

  /** What `allow` leaves recorded. */
  function Asked(requests: map<string, seq<int>>, ip: string, at: int, l: Limits): map<string, seq<int>> {
    var valid := Live(TimesOf(requests, ip), at, l.window);
    requests[ip := if |valid| < l.limit then valid + [at] else valid]
  }

  /** What `cleanup` leaves recorded: addresses without a live time are dropped. */
  function Cleaned(requests: map<string, seq<int>>, at: int, l: Limits): map<string, seq<int>> {
    map ip | ip in requests && Live(requests[ip], at, l.window) != [] :: Live(requests[ip], at, l.window)
  }

  /** What the limiter has recorded after some events. */
  function Memory(es: seq<Event>, l: Limits): map<string, seq<int>> {
    if es == [] then map[]
    else
      var before := Memory(es[..|es| - 1], l);
      match es[|es| - 1]
      case Allow(ip, at) => Asked(before, ip, at, l)
      case Cleanup(at) => Cleaned(before, at, l)
  }

  /** Its answer to a request after these events. */
  predicate Answer(es: seq<Event>, ip: string, at: int, l: Limits) {
    |Live(TimesOf(Memory(es, l), ip), at, l.window)| < l.limit
  }

  /** Its answers to the requests among the events, in order. */
  function Answers(es: seq<Event>, l: Limits): seq<bool> {
    if es == [] then []
    else
      var before, e := es[..|es| - 1], es[|es| - 1];
      Answers(before, l) + if e.Allow? then [Answer(before, e.ip, e.at, l)] else []
  }

  /** When it granted a request of this address. */
  function Granted(es: seq<Event>, ip: string, l: Limits): seq<int> {
    if es == [] then []
    else
      var before, e := es[..|es| - 1], es[|es| - 1];
      Granted(before, ip, l) + if e.Allow? && e.ip == ip && Answer(before, ip, e.at, l) then [e.at] else []
  }

  ghost predicate ClockRises(es: seq<Event>) {
    forall i, j | 0 <= i < j < |es| :: es[i].at <= es[j].at
  }

  // ------------------------------------------- the memory answers as the full history

  /** Filtering by an earlier window first changes nothing later. */
  lemma {:induction false} LiveOfLive(times: seq<int>, now: int, later: int, window: int)
    requires now <= later
    ensures Live(Live(times, now, window), later, window) == Live(times, later, window)
    decreases |times|
  {
    if times != [] {
      var init, last := times[..|times| - 1], times[|times| - 1];
      LiveOfLive(init, now, later, window);
      if now - last < window {
        var kept := Live(times, now, window);
        assert kept[..|kept| - 1] == Live(init, now, window);
      } else {
        assert Live(times, now, window) == Live(init, now, window);
        assert Live(times, later, window) == Live(init, later, window);
      }
    }
  }

  lemma LiveSnoc(times: seq<int>, t: int, now: int, window: int)
    ensures Live(times + [t], now, window) == Live(times, now, window) + if now - t < window then [t] else []
  {
    assert (times + [t])[..|times|] == times;
  }

  /** From `now` on, the recorded times and the full list of grants look the same. */
  ghost predicate Agrees(times: seq<int>, grants: seq<int>, now: int, window: int) {
    forall later | now <= later :: Live(times, later, window) == Live(grants, later, window)
  }

  lemma AgreesAfterFilter(times: seq<int>, grants: seq<int>, now: int, window: int)
    requires Agrees(times, grants, now, window)
    ensures Agrees(Live(times, now, window), grants, now, window)
  {
    forall later | now <= later
      ensures Live(Live(times, now, window), later, window) == Live(grants, later, window)
    {
      LiveOfLive(times, now, later, window);
    }
  }

  lemma AgreesAfterGrant(times: seq<int>, grants: seq<int>, now: int, window: int)
    requires Agrees(times, grants, now, window)
    ensures Agrees(times + [now], grants + [now], now, window)
  {
    forall later | now <= later
      ensures Live(times + [now], later, window) == Live(grants + [now], later, window)
    {
      LiveSnoc(times, now, later, window);
      LiveSnoc(grants, now, later, window);
    }
  }

  /** One event keeps the agreement for every address. */
  lemma EventKeepsAgreement(m: map<string, seq<int>>, e: Event, ip: string, grants: seq<int>, l: Limits)
    requires Agrees(TimesOf(m, ip), grants, e.at, l.window)
    ensures
      var m' := match e case Allow(asker, at) => Asked(m, asker, at, l) case Cleanup(at) => Cleaned(m, at, l);
      var grants' := if e.Allow? && e.ip == ip && |Live(grants, e.at, l.window)| < l.limit
                     then grants + [e.at] else grants;
      Agrees(TimesOf(m', ip), grants', e.at, l.window)
  {
    AgreesAfterFilter(TimesOf(m, ip), grants, e.at, l.window);
    AgreesAfterGrant(Live(TimesOf(m, ip), e.at, l.window), grants, e.at, l.window);
  }

  /** What is recorded and the full history give the same answers from `now` on. */
  lemma {:induction false} MemoryAgrees(es: seq<Event>, ip: string, l: Limits, now: int)
    requires ClockRises(es) && forall i | 0 <= i < |es| :: es[i].at <= now
    ensures Agrees(TimesOf(Memory(es, l), ip), Grants(es, ip, l), now, l.window)
    decreases |es|
  {
    if es != [] {
      var before, e := es[..|es| - 1], es[|es| - 1];
      MemoryAgrees(before, ip, l, e.at);
      EventKeepsAgreement(Memory(before, l), e, ip, Grants(before, ip, l), l);
    }
  }

  /** The limiter grants what the one that never forgets grants. */
  lemma {:induction false} GrantedIsGrants(es: seq<Event>, ip: string, l: Limits)
    requires ClockRises(es)
    ensures Granted(es, ip, l) == Grants(es, ip, l)
    decreases |es|
  {
    if es != [] {
      var before, e := es[..|es| - 1], es[|es| - 1];
      GrantedIsGrants(before, ip, l);
      MemoryAgrees(before, ip, l, e.at);
    }
  }

  // ------------------------------------------------------------------ what it promises

  /** No window of the configured length ever holds more than `limit` granted requests of an
      address. */
  lemma NoWindowOverTheLimit(es: seq<Event>, ip: string, l: Limits, from: int)
    requires ClockRises(es)
    ensures CountIn(Granted(es, ip, l), from, l.window) <= if l.limit > 0 then l.limit else 0
  {
    GrantedIsGrants(es, ip, l);
    GrantsFitWindow(es, ip, l, from);
  }

  /** A request is refused exactly when `limit` granted ones lie in the window that ends with it. */
  lemma RefusedOnlyAtTheLimit(es: seq<Event>, ip: string, at: int, l: Limits)
    requires ClockRises(es) && forall i | 0 <= i < |es| :: es[i].at <= at
    ensures !Answer(es, ip, at, l) <==> CountIn(Granted(es, ip, l), at - l.window + 1, l.window) >= l.limit
  {
    GrantedIsGrants(es, ip, l);
    GrantsAreBounded(es, ip, l, at);
    MemoryAgrees(es, ip, l, at);
    LiveIsWindow(Grants(es, ip, l), at, l.window);
  }

  function Requests(es: seq<Event>): seq<Event> {
    if es == [] then []
    else Requests(es[..|es| - 1]) + if es[|es| - 1].Allow? then [es[|es| - 1]] else []
  }

  lemma {:induction false} GrantsOfRequests(es: seq<Event>, ip: string, l: Limits)
    ensures Grants(Requests(es), ip, l) == Grants(es, ip, l)
    decreases |es|
  {
    if es != [] {
      GrantsOfRequests(es[..|es| - 1], ip, l);
      if es[|es| - 1].Allow? {
        assert Requests(es)[..|Requests(es)| - 1] == Requests(es[..|es| - 1]);
      } else {
        assert Requests(es) == Requests(es[..|es| - 1]);
      }
    }
  }

  lemma {:induction false} RequestsRise(es: seq<Event>, now: int)
    requires ClockRises(es) && forall i | 0 <= i < |es| :: es[i].at <= now
    ensures ClockRises(Requests(es)) && forall i | 0 <= i < |Requests(es)| :: Requests(es)[i].at <= now
    decreases |es|
  {
    if es != [] {
      RequestsRise(es[..|es| - 1], es[|es| - 1].at);
    }
  }

  /** Taking the cleanups out of a run leaves every answer as it is. */
  lemma {:induction false} AnswersOfRequests(es: seq<Event>, l: Limits)
    requires ClockRises(es)
    ensures Answers(es, l) == Answers(Requests(es), l)
    decreases |es|
  {
    if es != [] {
      var before, e := es[..|es| - 1], es[|es| - 1];
      AnswersOfRequests(before, l);
      if e.Allow? {
        RequestsRise(before, e.at);
        MemoryAgrees(before, e.ip, l, e.at);
        MemoryAgrees(Requests(before), e.ip, l, e.at);
        GrantsOfRequests(before, e.ip, l);
        assert Requests(es)[..|Requests(es)| - 1] == Requests(before);
      } else {
        assert Requests(es) == Requests(before);
      }
    }
  }

  /** Two runs with the same requests get the same answers, wherever their cleanups fall. */
  lemma CleanupsAreInvisible(es: seq<Event>, fs: seq<Event>, l: Limits)
    requires ClockRises(es) && ClockRises(fs) && Requests(es) == Requests(fs)
    ensures Answers(es, l) == Answers(fs, l)
  {
    AnswersOfRequests(es, l);
    AnswersOfRequests(fs, l);
  }

  // -------------------------------------------------------------- the limiter itself

  method Filter(times: seq<int>, now: int, window: int) returns (valid: seq<int>)
    ensures valid == Live(times, now, window)
  {
    valid := [];
    for i := 0 to |times|
      invariant valid == Live(times[..i], now, window)
    {
      assert times[..i + 1][..i] == times[..i];
      if now - times[i] < window {
        valid := valid + [times[i]];
      }
    }
    assert times[..|times|] == times;
  }

  class Limiter {
    const l: Limits
    var requests: map<string, seq<int>>
    ghost var history: seq<Event>

    constructor (limit: int, window: int)
      ensures l == Limits(limit, window) && history == [] && Valid()
    {
      l := Limits(limit, window);
      requests, history := map[], [];
    }

    /** What is recorded is what the events so far leave. */
    ghost predicate Valid()
      reads this
    {
      requests == Memory(history, l)
    }

    /** `allow`. */
    method Allow(ip: string, now: int) returns (ok: bool)
      requires Valid()
      modifies this
      ensures Valid() && history == old(history) + [Event.Allow(ip, now)]
      ensures ok == Answer(old(history), ip, now, l)
    {
      var valid := Filter(TimesOf(requests, ip), now, l.window);
      ok := |valid| < l.limit;
      if ok {
        requests := requests[ip := valid + [now]];
      } else {
        requests := requests[ip := valid];
      }
      history := history + [Event.Allow(ip, now)];
      assert history[..|history| - 1] == old(history);
    }

    /** `cleanup`: drops what the window has left behind, address by address. */
    method Cleanup(now: int)
      requires Valid()
      modifies this
      ensures Valid() && history == old(history) + [Event.Cleanup(now)]
    {
      ghost var was := requests;
      var todo := requests.Keys;
      while todo != {}
        invariant history == old(history) && todo <= was.Keys && requests.Keys <= was.Keys
        invariant forall ip | ip in was && ip in todo :: ip in requests && requests[ip] == was[ip]
        invariant forall ip | ip in was && ip !in todo ::
                    if Live(was[ip], now, l.window) == [] then ip !in requests
                    else ip in requests && requests[ip] == Live(was[ip], now, l.window)
        decreases todo
      {
        var ip :| ip in todo;
        var valid := Filter(requests[ip], now, l.window);
        if |valid| == 0 {
          requests := requests - {ip};
        } else {
          requests := requests[ip := valid];
        }
        todo := todo - {ip};
      }
      assert requests == Cleaned(was, now, l);
      history := history + [Event.Cleanup(now)];
      assert history[..|history| - 1] == old(history);
    }
  }
}
