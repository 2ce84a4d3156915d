/**
 * CustomRateLimitGuard: INCR, then EXPIRE only when the counter came back as 1. The two are
 * separate steps; other requests interleave and the EXPIRE may come late or never.
 */
module RateLimit {
  import opened Base
  import opened TtlStore

  /** The decorator's options for one throttle key, defaults applied. */
  datatype Config = Config(key: string, limit: Lifetime, ttl: Lifetime)

  /** `options?.limit || 100` and `options?.ttl || 60`: zero is replaced by the default too. */
  function Configure(key: string, limit: Option<nat>, ttl: Option<nat>): Config {
    Config(key,
           if limit.Some? && limit.value != 0 then limit.value else 100,
           if ttl.Some? && ttl.value != 0 then ttl.value else 60)
  }

  /** One INCR: when, in which life of the key (1, 2, ...), and the counter value it returned. */
  datatype Hit = Hit(at: int, life: nat, count: int)

  /**
   * `starts[l - 1]` is when life l began; `owing` holds the lives whose first request has not
   * yet run its EXPIRE; `hits` are all requests in order. These three are history.
   */
  datatype State = State(now: int, store: Store<int>, starts: seq<int>, owing: set<nat>, hits: seq<Hit>)

  datatype Event =
    | Request
    | RunExpire(life: nat)
    | Tick(elapsed: nat)

  const INIT := State(0, map[], [], {}, [])

  predicate Accepts(c: Config, h: Hit) {
    h.count <= c.limit
  }

  function Step(c: Config, s: State, e: Event): State {
    match e
    case Request =>
      var store := Incr(s.store, s.now, c.key);
      var n := store[c.key].value;
      var starts := if n == 1 then s.starts + [s.now] else s.starts;
      State(s.now, store, starts,
            if n == 1 then s.owing + {|starts|} else s.owing,
            s.hits + [Hit(s.now, |starts|, n)])
    case RunExpire(life) =>
      if life !in s.owing then s
      else s.(store := Expire(s.store, s.now, c.key, c.ttl), owing := s.owing - {life})
    case Tick(d) => s.(now := s.now + d)
  }

  function RunFrom(c: Config, s: State, es: seq<Event>): State {
    if es == [] then s else Step(c, RunFrom(c, s, es[..|es| - 1]), es[|es| - 1])
  }

  function Run(c: Config, es: seq<Event>): State {
    RunFrom(c, INIT, es)
  }

  // ----- The invariant -----

  /** The slot is the current life: its counter, its first EXPIRE owed or its deadline late enough. */
  ghost predicate CurrentLife(c: Config, s: State)
    requires s.hits != []
  {
    var last := s.hits[|s.hits| - 1];
    && last.life == |s.starts| > 0
    && c.key in s.store
    && s.store[c.key].value == last.count
    && match s.store[c.key].deadline
       case None => s.owing == {last.life}
       case Some(d) => s.owing == {} && s.starts[last.life - 1] + MS * c.ttl <= d
  }

  /** Lives start more than one ttl apart. */
  ghost predicate StartsApart(c: Config, starts: seq<int>) {
    forall l {:trigger starts[l]} :: 0 < l < |starts| ==> starts[l - 1] + MS * c.ttl < starts[l]
  }

  /** Requests belong to the life that was current: after its start, before the next one's. */
  ghost predicate HitInItsLife(s: State, h: Hit) {
    && 1 <= h.life <= |s.starts|
    && 1 <= h.count
    && s.starts[h.life - 1] <= h.at <= s.now
    && (h.count == 1 ==> h.at == s.starts[h.life - 1])
    && (h.life < |s.starts| ==> h.at <= s.starts[h.life])
  }

  /** Counters restart at 1 with each life and otherwise go up one by one. */
  ghost predicate Successive(a: Hit, b: Hit) {
    || (b.life == a.life && b.count == a.count + 1)
    || (b.life == a.life + 1 && b.count == 1)
  }

  ghost predicate Inv(c: Config, s: State) {
    && (if s.hits == [] then s.starts == [] && s.owing == {} && c.key !in s.store
        else CurrentLife(c, s) && s.hits[0].life == s.hits[0].count == 1)
    && StartsApart(c, s.starts)
    && (forall i :: 0 <= i < |s.hits| ==> HitInItsLife(s, s.hits[i]))
    && (forall i :: 0 < i < |s.hits| ==> Successive(s.hits[i - 1], s.hits[i]))
    && (|s.starts| > 0 ==> s.starts[|s.starts| - 1] <= s.now)
  }

  /** Later states keep a request in its life as long as the starts only grow at the end. */
  lemma HitStaysInItsLife(s: State, t: State, h: Hit)
    requires HitInItsLife(s, h) && s.starts <= t.starts && s.now <= t.now
    requires h.life == |s.starts| < |t.starts| ==> s.now <= t.starts[h.life]
    ensures HitInItsLife(t, h)
  {
    assert s.starts[h.life - 1] == t.starts[h.life - 1];
    if h.life < |s.starts| {
      assert s.starts[h.life] == t.starts[h.life];
    }
  }

  /** A first request ever, one that finds the key, and one that begins the next life. */
  lemma RequestIsInItsLife(c: Config, s: State)
    requires Inv(c, s)
    ensures
      var t := Step(c, s, Request);
      && CurrentLife(c, t)
      && HitInItsLife(t, t.hits[|s.hits|])
      && (if s.hits == [] then t.hits[0].life == t.hits[0].count == 1 else Successive(s.hits[|s.hits| - 1], t.hits[|s.hits|]))
  {
    if s.hits != [] {
      assert HitInItsLife(s, s.hits[|s.hits| - 1]);
    }
  }

  lemma RequestKeepsStartsApart(c: Config, s: State)
    requires Inv(c, s)
    ensures StartsApart(c, Step(c, s, Request).starts)
  {
    if s.hits != [] {
      assert HitInItsLife(s, s.hits[|s.hits| - 1]);
    }
  }

  lemma AppendSuccessive(hits: seq<Hit>, h: Hit)
    requires forall i :: 0 < i < |hits| ==> Successive(hits[i - 1], hits[i])
    requires hits != [] ==> Successive(hits[|hits| - 1], h)
    ensures forall i :: 0 < i < |hits + [h]| ==> Successive((hits + [h])[i - 1], (hits + [h])[i])
  {
  }

  lemma AppendHit(c: Config, s: State)
    requires Inv(c, s)
    ensures forall i :: 0 <= i < |Step(c, s, Request).hits| ==> HitInItsLife(Step(c, s, Request), Step(c, s, Request).hits[i])
  {
    var t := Step(c, s, Request);
    RequestIsInItsLife(c, s);
    forall i | 0 <= i < |t.hits| ensures HitInItsLife(t, t.hits[i]) {
      if i < |s.hits| {
        assert HitInItsLife(s, s.hits[i]);
        HitStaysInItsLife(s, t, s.hits[i]);
      }
    }
  }

  lemma RequestKeepsInv(c: Config, s: State)
    requires Inv(c, s)
    ensures Inv(c, Step(c, s, Request))
  {
    var t := Step(c, s, Request);
    RequestIsInItsLife(c, s);
    RequestKeepsStartsApart(c, s);
    AppendHit(c, s);
    AppendSuccessive(s.hits, t.hits[|s.hits|]);
  }

  lemma ExpireSetsDeadline(c: Config, s: State, life: nat)
    requires s.hits != [] && CurrentLife(c, s) && life in s.owing
    requires s.starts[|s.starts| - 1] <= s.now
    ensures CurrentLife(c, Step(c, s, RunExpire(life)))
  {
    assert s.store[c.key].deadline == None && s.owing - {life} == {};
  }

  lemma ExpireKeepsInv(c: Config, s: State, life: nat)
    requires Inv(c, s)
    ensures Inv(c, Step(c, s, RunExpire(life)))
  {
    if life in s.owing {
      ExpireSetsDeadline(c, s, life);
      HitsStay(c, s, Step(c, s, RunExpire(life)));
    }
  }

  lemma HitsStay(c: Config, s: State, t: State)
    requires Inv(c, s) && t.hits == s.hits && t.starts == s.starts && s.now <= t.now
    ensures forall i :: 0 <= i < |t.hits| ==> HitInItsLife(t, t.hits[i])
  {
    forall i | 0 <= i < |t.hits| ensures HitInItsLife(t, t.hits[i]) {
      HitStaysInItsLife(s, t, s.hits[i]);
    }
  }

  lemma TickKeepsInv(c: Config, s: State, d: nat)
    requires Inv(c, s)
    ensures Inv(c, Step(c, s, Tick(d)))
  {
    HitsStay(c, s, Step(c, s, Tick(d)));
  }

  lemma StepKeepsInv(c: Config, s: State, e: Event)
    requires Inv(c, s)
    ensures Inv(c, Step(c, s, e))
  {
    match e
    case Request => RequestKeepsInv(c, s);
    case RunExpire(life) => ExpireKeepsInv(c, s, life);
    case Tick(d) => TickKeepsInv(c, s, d);
  }

  lemma {:induction false} RunKeepsInv(c: Config, es: seq<Event>)
    ensures Inv(c, Run(c, es))
  {
    if es == [] {
    } else {
      RunKeepsInv(c, es[..|es| - 1]);
      StepKeepsInv(c, Run(c, es[..|es| - 1]), es[|es| - 1]);
    }
  }

  /** Later requests have a later life, or the same life and a larger counter. */
  lemma {:induction false} HitsAreOrdered(c: Config, s: State, i: int, j: int)
    requires Inv(c, s) && 0 <= i < j < |s.hits|
    ensures s.hits[i].life <= s.hits[j].life
    ensures s.hits[i].life == s.hits[j].life ==> s.hits[i].count < s.hits[j].count
    decreases j
  {
    assert Successive(s.hits[j - 1], s.hits[j]) && HitInItsLife(s, s.hits[i]);
    if i < j - 1 {
      HitsAreOrdered(c, s, i, j - 1);
    }
  }

  lemma {:induction false} LivesAreApart(c: Config, starts: seq<int>, a: int, b: int)
    requires StartsApart(c, starts) && 0 <= a < b < |starts|
    ensures starts[a] + MS * c.ttl < starts[b]
    decreases b
  {
    assert starts[b - 1] + MS * c.ttl < starts[b];
    if a < b - 1 {
      LivesAreApart(c, starts, a, b - 1);
    }
  }

  // ----- One life of the key -----

  /** Indices of the requests of one life, up to but excluding n. */
  function InLife(hits: seq<Hit>, life: nat, n: nat): set<int> {
    set i | 0 <= i < |hits| && i < n && hits[i].life == life
  }

  /** A request's counter is one more than the number of earlier requests of its life. */
  lemma {:induction false} CountIsRank(c: Config, s: State, n: nat)
    requires Inv(c, s) && n < |s.hits|
    ensures s.hits[n].count == |InLife(s.hits, s.hits[n].life, n)| + 1
  {
    var here := InLife(s.hits, s.hits[n].life, n);
    assert HitInItsLife(s, s.hits[n]);
    if n == 0 {
      assert here == {};
    } else {
      assert Successive(s.hits[n - 1], s.hits[n]);
      if s.hits[n - 1].life == s.hits[n].life {
        CountIsRank(c, s, n - 1);
        assert here == InLife(s.hits, s.hits[n].life, n - 1) + {n - 1};
      } else {
        forall i | i in here ensures false {
          if i < n - 1 {
            HitsAreOrdered(c, s, i, n - 1);
          }
        }
        assert here == {};
      }
    }
  }

  /** In each life exactly the first `limit` requests pass: a request passes iff fewer came before it. */
  lemma EachLifeAcceptsItsFirstRequests(c: Config, es: seq<Event>, n: nat)
    requires n < |Run(c, es).hits|
    ensures
      var hits := Run(c, es).hits;
      Accepts(c, hits[n]) <==> |InLife(hits, hits[n].life, n)| < c.limit
  {
    RunKeepsInv(c, es);
    CountIsRank(c, Run(c, es), n);
  }

  /** Those of them that pass. */
  function Passed(c: Config, hits: seq<Hit>, life: nat, n: nat): set<int> {
    set i | 0 <= i < |hits| && i < n && hits[i].life == life && Accepts(c, hits[i])
  }

  lemma OneMoreInLife(c: Config, hits: seq<Hit>, life: nat, n: nat)
    requires 0 < n <= |hits| && hits[n - 1].life == life
    ensures |InLife(hits, life, n)| == |InLife(hits, life, n - 1)| + 1
    ensures |Passed(c, hits, life, n)| == |Passed(c, hits, life, n - 1)| + if Accepts(c, hits[n - 1]) then 1 else 0
  {
    assert InLife(hits, life, n) == InLife(hits, life, n - 1) + {n - 1};
    if Accepts(c, hits[n - 1]) {
      assert Passed(c, hits, life, n) == Passed(c, hits, life, n - 1) + {n - 1};
    } else {
      assert Passed(c, hits, life, n) == Passed(c, hits, life, n - 1);
    }
  }

  lemma OneMoreElsewhere(c: Config, hits: seq<Hit>, life: nat, n: nat)
    requires 0 < n <= |hits| && hits[n - 1].life != life
    ensures |InLife(hits, life, n)| == |InLife(hits, life, n - 1)|
    ensures |Passed(c, hits, life, n)| == |Passed(c, hits, life, n - 1)|
  {
    assert InLife(hits, life, n) == InLife(hits, life, n - 1);
    assert Passed(c, hits, life, n) == Passed(c, hits, life, n - 1);
  }

  lemma {:induction false} PassedIsMin(c: Config, s: State, life: nat, n: nat)
    requires Inv(c, s) && n <= |s.hits|
    ensures |Passed(c, s.hits, life, n)| == Min(|InLife(s.hits, life, n)|, c.limit)
  {
    if n == 0 {
      assert InLife(s.hits, life, 0) == {} && Passed(c, s.hits, life, 0) == {};
    } else {
      PassedIsMin(c, s, life, n - 1);
      if s.hits[n - 1].life == life {
        CountIsRank(c, s, n - 1);
        OneMoreInLife(c, s.hits, life, n);
      } else {
        OneMoreElsewhere(c, s.hits, life, n);
      }
    }
  }

  /** So in every run a life with m requests accepts min(m, limit) of them. */
  lemma LifeAcceptsMinOfRequestsAndLimit(c: Config, es: seq<Event>, life: nat)
    ensures
      var hits := Run(c, es).hits;
      |Passed(c, hits, life, |hits|)| == Min(|InLife(hits, life, |hits|)|, c.limit)
  {
    RunKeepsInv(c, es);
    PassedIsMin(c, Run(c, es), life, |Run(c, es).hits|);
  }

  // ----- Any window of one ttl -----

  /** Accepted requests in the closed interval from x to x + ttl. */
  function AcceptedIn(c: Config, hits: seq<Hit>, x: int): set<int> {
    set i | 0 <= i < |hits| && Accepts(c, hits[i]) && x <= hits[i].at <= x + MS * c.ttl
  }

  /** The window touches at most two lives, and never the first request of both. */
  lemma WindowTouchesTwoLives(c: Config, s: State, x: int, i: int, j: int)
    requires Inv(c, s) && i in AcceptedIn(c, s.hits, x) && j in AcceptedIn(c, s.hits, x)
    ensures s.hits[j].life <= s.hits[i].life + 1
    ensures s.hits[j].life == s.hits[i].life + 1 ==> s.hits[i].count > 1
  {
    var a, b := s.hits[i], s.hits[j];
    assert HitInItsLife(s, a) && HitInItsLife(s, b);
    if b.life > a.life + 1 {
      LivesAreApart(c, s.starts, a.life, b.life - 1);
    } else if b.life == a.life + 1 {
      LivesAreApart(c, s.starts, a.life - 1, a.life);
    }
  }

  /** Labels for the window: life m keeps its counters, the next life continues after `limit`. */
  function Labels(c: Config, hits: seq<Hit>, window: set<int>, m: nat): map<int, int>
    requires forall i :: i in window ==> 0 <= i < |hits|
  {
    map i | i in window :: if hits[i].life == m then hits[i].count else c.limit + hits[i].count
  }

  lemma LabelsAreDistinct(c: Config, s: State, window: set<int>, m: nat, i: int, j: int)
    requires Inv(c, s)
    requires forall k :: k in window ==> 0 <= k < |s.hits| && Accepts(c, s.hits[k]) && m <= s.hits[k].life <= m + 1
    requires i in window && j in window && i < j
    ensures Labels(c, s.hits, window, m)[i] != Labels(c, s.hits, window, m)[j]
  {
    HitsAreOrdered(c, s, i, j);
    assert HitInItsLife(s, s.hits[i]) && HitInItsLife(s, s.hits[j]);
  }

  /** A window whose earliest life is m: its labels are distinct and lie in a range of 2 * limit - 1. */
  lemma CountWindow(c: Config, s: State, x: int, first: int)
    requires Inv(c, s) && first in AcceptedIn(c, s.hits, x)
    requires forall j :: j in AcceptedIn(c, s.hits, x) ==> s.hits[first].life <= s.hits[j].life
    ensures |AcceptedIn(c, s.hits, x)| <= 2 * c.limit - 1
  {
    var window, m := AcceptedIn(c, s.hits, x), s.hits[first].life;
    forall i | i in window ensures m <= s.hits[i].life <= m + 1 && 1 <= s.hits[i].count <= c.limit {
      WindowTouchesTwoLives(c, s, x, first, i);
      assert HitInItsLife(s, s.hits[i]);
    }
    var tag := Labels(c, s.hits, window, m);
    forall i, j | i in window && j in window && i != j ensures tag[i] != tag[j] {
      if i < j { LabelsAreDistinct(c, s, window, m, i, j); } else { LabelsAreDistinct(c, s, window, m, j, i); }
    }
    if j :| j in window && s.hits[j].life == m + 1 {
      forall i | i in window ensures 2 <= tag[i] < 2 * c.limit + 1 {
        WindowTouchesTwoLives(c, s, x, i, j);
      }
      DistinctLabels(window, tag, 2, 2 * c.limit + 1);
    } else {
      DistinctLabels(window, tag, 1, c.limit + 1);
    }
  }

  /**
   * Any interval of length ttl, in every interleaving, even if an EXPIRE is late or never runs:
   * at most 2 * limit - 1 requests are accepted.
   */
  lemma WindowBound(c: Config, es: seq<Event>, x: int)
    ensures |AcceptedIn(c, Run(c, es).hits, x)| <= 2 * c.limit - 1
  {
    RunKeepsInv(c, es);
    var s := Run(c, es);
    var window := AcceptedIn(c, s.hits, x);
    EarliestLife(s.hits, window);
    if window != {} {
      var first :| first in window && forall j :: j in window ==> s.hits[first].life <= s.hits[j].life;
      CountWindow(c, s, x, first);
    }
  }

  lemma {:induction false} EarliestLife(hits: seq<Hit>, window: set<int>)
    requires forall i :: i in window ==> 0 <= i < |hits|
    ensures window == {} || exists f :: f in window && forall j :: j in window ==> hits[f].life <= hits[j].life
  {
    if i :| i in window {
      var rest := window - {i};
      EarliestLife(hits, rest);
      if rest == {} {
        assert window == {i};
      } else {
        var f :| f in rest && forall j :: j in rest ==> hits[f].life <= hits[j].life;
        var g := if hits[f].life <= hits[i].life then f else i;
        assert g in window && forall j :: j in window ==> hits[g].life <= hits[j].life;
      }
    } else {
      assert forall i :: i !in window;
      assert window == {};
    }
  }

  // ----- The bound is attained -----

  function Burst(n: nat): seq<Event> {
    if n == 0 then [] else Burst(n - 1) + [Request]
  }

  /** A full life is opened, idles until its last moment, and the next one follows at once. */
  function TwoBursts(c: Config): seq<Event> {
    [Request, RunExpire(1), Tick(MS * c.ttl)] + Burst(c.limit - 1) + [Tick(1)] + Burst(c.limit)
  }

  lemma {:induction false} RunAppend(c: Config, s: State, a: seq<Event>, b: seq<Event>)
    ensures RunFrom(c, s, a + b) == RunFrom(c, RunFrom(c, s, a), b)
    decreases |b|
  {
    if b == [] {
      assert a + b == a;
    } else {
      assert (a + b)[..|a + b| - 1] == a + b[..|b| - 1];
      RunAppend(c, s, a, b[..|b| - 1]);
    }
  }

  /** n requests at one moment of one life, counted onwards from `count`. */
  function Served(at: int, life: nat, count: int, n: nat): (hits: seq<Hit>)
    ensures |hits| == n && forall i :: 0 <= i < n ==> hits[i] == Hit(at, life, count + i)
  {
    seq(n, i => Hit(at, life, count + i))
  }

  lemma ServedOneMore(at: int, life: nat, count: int, n: nat)
    ensures Served(at, life, count, n) + [Hit(at, life, count + n)] == Served(at, life, count, n + 1)
    ensures [Hit(at, life, count)] + Served(at, life, count + 1, n) == Served(at, life, count, n + 1)
  {
  }

  /** State s after n further requests within its present life. */
  function AfterBurst(c: Config, s: State, n: nat): State
    requires c.key in s.store
  {
    var e := s.store[c.key];
    s.(store := s.store[c.key := Entry(e.value + n, e.deadline)],
       hits := s.hits + Served(s.now, |s.starts|, e.value + 1, n))
  }

  lemma RequestInBurst(c: Config, s: State, n: nat)
    requires c.key in s.store && Live(s.store[c.key], s.now) && s.store[c.key].value >= 1
    ensures Step(c, AfterBurst(c, s, n), Request) == AfterBurst(c, s, n + 1)
  {
    var e := s.store[c.key];
    ServedOneMore(s.now, |s.starts|, e.value + 1, n);
    var u := AfterBurst(c, s, n);
    assert u.store[c.key := Entry(e.value + n + 1, e.deadline)] == s.store[c.key := Entry(e.value + n + 1, e.deadline)];
  }

  lemma {:induction false} RunBurst(c: Config, s: State, n: nat)
    requires c.key in s.store && Live(s.store[c.key], s.now) && s.store[c.key].value >= 1
    ensures RunFrom(c, s, Burst(n)) == AfterBurst(c, s, n)
  {
    if n == 0 {
      assert s.store[c.key := s.store[c.key]] == s.store;
      assert s.hits + Served(s.now, |s.starts|, s.store[c.key].value + 1, 0) == s.hits;
    } else {
      RunBurst(c, s, n - 1);
      RunOneMore(c, s, Burst(n - 1), Request);
      RequestInBurst(c, s, n - 1);
    }
  }

  lemma RunOneMore(c: Config, s: State, es: seq<Event>, e: Event)
    ensures RunFrom(c, s, es + [e]) == Step(c, RunFrom(c, s, es), e)
  {
    assert (es + [e])[..|es|] == es;
  }

  lemma OpenLife(c: Config)
    ensures Run(c, [Request, RunExpire(1), Tick(MS * c.ttl)])
         == State(MS * c.ttl, map[c.key := Entry(1, Some(MS * c.ttl))], [0], {}, [Hit(0, 1, 1)])
  {
    RunOneMore(c, INIT, [], Request);
    assert [] + [Request] == [Request];
    var s1 := Run(c, [Request]);
    assert s1 == State(0, map[c.key := Entry(1, None)], [0], {1}, [Hit(0, 1, 1)]);
    RunOneMore(c, INIT, [Request], RunExpire(1));
    var s2 := Step(c, s1, RunExpire(1));
    assert s2.store == map[c.key := Entry(1, Some(MS * c.ttl))] && s2.owing == {};
    RunOneMore(c, INIT, [Request] + [RunExpire(1)], Tick(MS * c.ttl));
    assert [Request, RunExpire(1), Tick(MS * c.ttl)] == [Request] + [RunExpire(1)] + [Tick(MS * c.ttl)];
  }

  lemma FirstBurst(c: Config)
    ensures Run(c, [Request, RunExpire(1), Tick(MS * c.ttl)] + Burst(c.limit - 1))
         == State(MS * c.ttl, map[c.key := Entry(c.limit, Some(MS * c.ttl))], [0], {},
                  [Hit(0, 1, 1)] + Served(MS * c.ttl, 1, 2, c.limit - 1))
  {
    var open := [Request, RunExpire(1), Tick(MS * c.ttl)];
    OpenLife(c);
    RunAppend(c, INIT, open, Burst(c.limit - 1));
    RunBurst(c, Run(c, open), c.limit - 1);
  }

  lemma SecondBurst(c: Config, s: State)
    requires s.now == MS * c.ttl && s.starts == [0] && s.owing == {}
    requires s.store == map[c.key := Entry(c.limit, Some(MS * c.ttl))]
    ensures RunFrom(c, Step(c, s, Tick(1)), Burst(c.limit)).hits == s.hits + Served(MS * c.ttl + 1, 2, 1, c.limit)
  {
    hide RunFrom, Served;
    var s1 := Step(c, s, Tick(1));
    var s2 := Step(c, s1, Request);
    assert s2.starts == [0, s1.now] && s2.hits == s.hits + [Hit(s1.now, 2, 1)];
    BurstFrom(c, s1, c.limit);
    RunBurst(c, s2, c.limit - 1);
    ServedOneMore(s1.now, 2, 1, c.limit - 1);
    assert s.hits + [Hit(s1.now, 2, 1)] + Served(s1.now, 2, 2, c.limit - 1)
        == s.hits + Served(s1.now, 2, 1, c.limit);
  }

  /** A burst is one request followed by a burst one shorter. */
  lemma {:induction false} BurstFrom(c: Config, s: State, n: nat)
    requires n > 0
    ensures RunFrom(c, s, Burst(n)) == RunFrom(c, Step(c, s, Request), Burst(n - 1))
  {
    RunOneMore(c, s, Burst(n - 1), Request);
    if n > 1 {
      BurstFrom(c, s, n - 1);
      RunOneMore(c, Step(c, s, Request), Burst(n - 2), Request);
    }
  }

  /** For every limit and ttl a run accepts 2 * limit - 1 requests inside one ttl. */
  lemma WindowBoundIsTight(c: Config)
    ensures |AcceptedIn(c, Run(c, TwoBursts(c)).hits, MS * c.ttl)| == 2 * c.limit - 1
  {
    var es1 := [Request, RunExpire(1), Tick(MS * c.ttl)] + Burst(c.limit - 1);
    FirstBurst(c);
    SecondBurst(c, Run(c, es1));
    RunOneMore(c, INIT, es1, Tick(1));
    RunAppend(c, INIT, es1 + [Tick(1)], Burst(c.limit));
    TwoBurstsAccepted(c);
  }

  /**
   * "Max limit requests per ttl seconds", as the guard tells its clients, is true of every run exactly
   * when the limit is one.
   */
  lemma AdvertisedLimitHoldsOnlyForOne(c: Config)
    ensures (forall es: seq<Event>, x: int :: |AcceptedIn(c, Run(c, es).hits, x)| <= c.limit) <==> c.limit == 1
  {
    WindowBoundIsTight(c);
    forall es: seq<Event>, x: int ensures |AcceptedIn(c, Run(c, es).hits, x)| <= 2 * c.limit - 1 {
      WindowBound(c, es, x);
    }
  }

  lemma TwoBurstsAccepted(c: Config)
    ensures
      var hits := [Hit(0, 1, 1)] + Served(MS * c.ttl, 1, 2, c.limit - 1) + Served(MS * c.ttl + 1, 2, 1, c.limit);
      |AcceptedIn(c, hits, MS * c.ttl)| == 2 * c.limit - 1
  {
    var hits := [Hit(0, 1, 1)] + Served(MS * c.ttl, 1, 2, c.limit - 1) + Served(MS * c.ttl + 1, 2, 1, c.limit);
    assert |hits| == 2 * c.limit;
    assert forall i :: 0 <= i < |hits| ==> Accepts(c, hits[i]);
    assert forall i :: 1 <= i < |hits| ==> MS * c.ttl <= hits[i].at <= MS * c.ttl + 1;
    RangeSize(AcceptedIn(c, hits, MS * c.ttl), 1, 2 * c.limit);
  }

  /** INCR and a first request's EXPIRE without interruption, which is what the guard's method does. */
  lemma UninterruptedRequest(c: Config, es: seq<Event>)
    ensures
      var s := Run(c, es);
      var counted := Incr(s.store, s.now, c.key);
      var t := Step(c, s, Request);
      var u := Step(c, t, RunExpire(|t.starts|));
      && t.hits == s.hits + [Hit(s.now, |t.starts|, counted[c.key].value)]
      && (counted[c.key].value == 1 ==> u.store == Expire(counted, s.now, c.key, c.ttl))
      && (counted[c.key].value != 1 ==> t.store == counted && t.owing == s.owing)
  {
    RunKeepsInv(c, es);
  }

  // ----- The guard -----

  datatype RateInfo = RateInfo(limit: int, current: int, remaining: int, resetTime: int)

  datatype Rejection = TooManyRequests(retryAfter: int)

  class CustomRateLimitGuard {
    const redis: RedisService<int>

    constructor (redis: RedisService<int>)
      ensures this.redis == redis
    {
      this.redis := redis;
    }

    /** One uninterrupted call. A rejected request has still been counted. */
    method CanActivate(now: int, key: string, limit: Option<nat>, ttl: Option<nat>)
      returns (r: Result<RateInfo, Rejection>)
      modifies redis
      ensures
        var c := Configure(key, limit, ttl);
        var counted := Incr(old(redis.entries), now, key);
        && redis.entries == (if counted[key].value == 1 then Expire(counted, now, key, c.ttl) else counted)
        && (r.Ok? <==> Accepts(c, Hit(now, 0, counted[key].value)))
        && (r.Ok? ==> r.value == RateInfo(c.limit, counted[key].value, c.limit - counted[key].value, now + MS * c.ttl)
                      && r.value.remaining >= 0)
        && (r.Err? ==> r.error == TooManyRequests(c.ttl))
      ensures
        var max := if limit == None || limit == Some(0) then 100 else limit.value;
        var seconds := if ttl == None || ttl == Some(0) then 60 else ttl.value;
        && key in redis.entries
        && var entry := redis.entries[key];
        && entry.value == (if Get(old(redis.entries), now, key).Some? then Get(old(redis.entries), now, key).value + 1 else 1)
        && (entry.value == 1 ==> entry.deadline == Some(now + seconds * 1000))
        && r == if entry.value <= max then Ok(RateInfo(max, entry.value, max - entry.value, now + seconds * 1000))
                else Err(TooManyRequests(seconds))
    {
      var c := Configure(key, limit, ttl);
      var current := IncrKey(redis, now, key);
      if current == 1 {
        redis.ExpireKey(now, key, c.ttl);
      }
      if current > c.limit {
        return Err(TooManyRequests(c.ttl));
      }
      return Ok(RateInfo(c.limit, current, c.limit - current, now + c.ttl * MS));
    }
  }
}
