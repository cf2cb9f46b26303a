/** The risk engine of internal/risk/service.go: weighted factors of a subject, revocation on entering critical. */
module Risk {
  import opened Bytes

  const SECOND: int := 1_000_000_000
  const EVENT_FACTOR_TTL: int := 30 * 60 * SECOND

  const WEIGHT_POSTURE: int := 90
  const WEIGHT_DLP_HIGH: int := 50
  const WEIGHT_DLP_MEDIUM: int := 25
  const WEIGHT_DLP_LOW: int := 10

  datatype Level = Low | Medium | High | Critical

  function LevelOf(score: int): Level {
    if score >= 85 then Critical else if score >= 60 then High else if score >= 30 then Medium else Low
  }

  /** The fixed id "posture", or "dlp:" with the name of a rule. */
  datatype FactorID<N> = Posture | Dlp(rule: N)

  /** A factor without an expiry stays until it is replaced. */
  datatype Factor = Factor(weight: int, expire: Option<int>)

  type Factors<N(==)> = map<FactorID<N>, Factor>

  /** None is the empty jti: no session seen yet, nothing fired. */
  datatype Subject<J, N(==)> = Subject(factors: Factors<N>, lastJTI: Option<J>, firedJTI: Option<J>)

  function NewSubject<J, N(==)>(): Subject<J, N> {
    Subject(map[], None, None)
  }

  predicate ExpiredAt(f: Factor, now: int) {
    f.expire.Some? && now > f.expire.value
  }

  /** What the lazy collection leaves. */
  function Live<N>(fs: Factors<N>, now: int): Factors<N> {
    map id | id in fs && !ExpiredAt(fs[id], now) :: fs[id]
  }

  // ---- The score ----

  ghost function Sum<N>(fs: Factors<N>, ids: set<FactorID<N>>): int
    requires ids <= fs.Keys
  {
    if ids == {} then 0 else
    var id :| id in ids;
    fs[id].weight + Sum(fs, ids - {id})
  }

  /** Any factor may be taken out first: the sum has no order. */
  lemma {:induction false} SumWithout<N>(fs: Factors<N>, ids: set<FactorID<N>>, id: FactorID<N>)
    requires id in ids && ids <= fs.Keys
    ensures Sum(fs, ids) == fs[id].weight + Sum(fs, ids - {id})
  {
    var first :| first in ids && Sum(fs, ids) == fs[first].weight + Sum(fs, ids - {first});
    if first != id {
      SumWithout(fs, ids - {first}, id);
      SumWithout(fs, ids - {id}, first);
      assert ids - {first} - {id} == ids - {id} - {first};
    }
  }

  function Clamp(score: int): int {
    if score > 100 then 100 else if score < 0 then 0 else score
  }

  ghost function Score<N>(fs: Factors<N>, now: int): int {
    Clamp(Sum(Live(fs, now), Live(fs, now).Keys))
  }

  /** The assessment loop over the map in the order `order` happens to come in. */
  method AssessLocked<N(==)>(fs: Factors<N>, order: seq<FactorID<N>>, now: int) returns (kept: Factors<N>, score: int)
    requires forall id :: id in order <==> id in fs
    requires forall i, j :: 0 <= i < j < |order| ==> order[i] != order[j]
    ensures kept == Live(fs, now) && score == Score(fs, now)
  {
    hide Live, Passed, Dropped, Sum, ExpiredAt;
    kept, score := fs, 0;
    ghost var live := Live(fs, now);
    PassNone(fs, live);
    LiveIsLive(fs, now);
    for i := 0 to |order|
      invariant score == Sum(live, Passed(order[..i], live))
      invariant kept == fs - Dropped(order[..i], fs, live)
    {
      var id := order[i];
      PassOne(order, i, fs, live);
      if ExpiredAt(fs[id], now) {
        kept := kept - {id};
      } else {
        SumWithout(live, Passed(order[..i + 1], live), id);
        score := score + fs[id].weight;
      }
    }
    assert order[..|order|] == order;
    PassAll(order, fs, now);
    score := Clamp(score);
  }

  lemma LiveIsLive<N>(fs: Factors<N>, now: int)
    ensures Live(fs, now).Keys <= fs.Keys
    ensures forall id <- fs :: if ExpiredAt(fs[id], now) then id !in Live(fs, now)
                               else id in Live(fs, now) && Live(fs, now)[id] == fs[id]
  {
  }

  lemma PassNone<N>(fs: Factors<N>, live: Factors<N>)
    ensures Passed([], live) == {} && Dropped([], fs, live) == {} && fs - {} == fs && Sum(live, {}) == 0
  {
  }

  lemma PassAll<N>(order: seq<FactorID<N>>, fs: Factors<N>, now: int)
    requires forall id :: id in order <==> id in fs
    ensures Passed(order, Live(fs, now)) == Live(fs, now).Keys
    ensures fs - Dropped(order, fs, Live(fs, now)) == Live(fs, now)
  {
  }

  ghost function Passed<N>(order: seq<FactorID<N>>, live: Factors<N>): (ids: set<FactorID<N>>)
    ensures ids <= live.Keys
  {
    set id | id in live && id in order
  }

  ghost function Dropped<N>(order: seq<FactorID<N>>, fs: Factors<N>, live: Factors<N>): set<FactorID<N>> {
    set id | id in fs && id in order && id !in live
  }

  lemma PassOne<N>(order: seq<FactorID<N>>, i: nat, fs: Factors<N>, live: Factors<N>)
    requires i < |order| && order[i] in fs && live.Keys <= fs.Keys
    requires forall j, k :: 0 <= j < k < |order| ==> order[j] != order[k]
    ensures order[i] in live ==> order[i] in Passed(order[..i + 1], live)
                                 && Passed(order[..i + 1], live) - {order[i]} == Passed(order[..i], live)
                                 && Dropped(order[..i + 1], fs, live) == Dropped(order[..i], fs, live)
    ensures order[i] !in live ==> Passed(order[..i + 1], live) == Passed(order[..i], live)
                                  && Dropped(order[..i + 1], fs, live) == Dropped(order[..i], fs, live) + {order[i]}
  {
    assert order[..i + 1] == order[..i] + [order[i]];
    assert order[i] !in order[..i];
  }

  // ---- One observation ----

  function Put<N(==)>(fs: Factors<N>, id: FactorID<N>, f: Factor): Factors<N> {
    if f.weight > 0 then fs[id := f] else fs - {id}
  }

  /** A signal about a subject, or an assessment without one. */
  datatype Obs<J, N> = Signal(jti: Option<J>, id: FactorID<N>, weight: int, sticky: bool, now: int) | Look(now: int)

  function FactorOf<J, N>(o: Obs<J, N>): Factor
    requires o.Signal?
  {
    Factor(o.weight, if o.sticky then None else Some(o.now + EVENT_FACTOR_TTL))
  }

  function Target<J, N>(s: Subject<J, N>, o: Obs<J, N>): Option<J> {
    if o.Signal? && o.jti.Some? then o.jti else s.lastJTI
  }

  function FactorsAfter<J, N>(s: Subject<J, N>, o: Obs<J, N>): Factors<N> {
    Live(if o.Signal? then Put(s.factors, o.id, FactorOf(o)) else s.factors, o.now)
  }

  ghost predicate IsCritical<J, N>(s: Subject<J, N>, o: Obs<J, N>) {
    o.Signal? && LevelOf(Score(Put(s.factors, o.id, FactorOf(o)), o.now)) == Critical
  }

  ghost function Step<J, N>(s: Subject<J, N>, o: Obs<J, N>): Subject<J, N> {
    Subject(FactorsAfter(s, o), Target(s, o),
            if o.Look? then s.firedJTI else if IsCritical(s, o) then Target(s, o) else None)
  }

  /** Whether the callback runs; its jti is the target. */
  ghost predicate Fires<J, N>(s: Subject<J, N>, o: Obs<J, N>) {
    IsCritical(s, o) && s.firedJTI != Target(s, o)
  }

  datatype Assessment<N> = Assessment(score: int, level: Level, factors: Factors<N>, computedAt: int)

  /** K is the type of (tenant, subject) keys. */
  class Service<K(==), J(==), N(==)> {
    var state: map<K, Subject<J, N>>

    constructor ()
      ensures state == map[]
    {
      state := map[];
    }

    ghost function At(k: K): Subject<J, N>
      reads this
    {
      if k in state then state[k] else NewSubject()
    }

    /** observe; `order` is the order in which the map of factors is ranged over. */
    method Observe(k: K, o: Obs<J, N>, order: seq<FactorID<N>>)
      returns (a: Assessment<N>, fire: bool, target: Option<J>)
      requires o.Signal?
      requires forall id :: id in order <==> id in Put(At(k).factors, o.id, FactorOf(o))
      requires forall i, j :: 0 <= i < j < |order| ==> order[i] != order[j]
      modifies this
      ensures state == old(state)[k := Step(old(At(k)), o)]
      ensures fire == Fires(old(At(k)), o) && target == Target(old(At(k)), o)
      ensures a.score == Score(Put(old(At(k)).factors, o.id, FactorOf(o)), o.now) && a.level == LevelOf(a.score)
      ensures a.factors == FactorsAfter(old(At(k)), o) && a.computedAt == o.now
    {
      var s := if k in state then state[k] else NewSubject();
      if o.jti.Some? {
        s := s.(lastJTI := o.jti);
      }
      var f := FactorOf(o);
      if f.weight > 0 {
        s := s.(factors := s.factors[o.id := f]);
      } else {
        s := s.(factors := s.factors - {o.id});
      }
      var kept, score := AssessLocked(s.factors, order, o.now);
      s := s.(factors := kept);
      a := Assessment(score, LevelOf(score), kept, o.now);
      target := s.lastJTI;
      fire := false;
      if a.level == Critical {
        if s.firedJTI != target {
          fire := true;
          s := s.(firedJTI := target);
        }
      } else {
        s := s.(firedJTI := None);
      }
      state := state[k := s];
    }
  }

  /** ObservePosture as a signal. */
  function PostureSignal<J, N>(jti: Option<J>, compliant: bool, now: int): Obs<J, N> {
    Signal(jti, Posture, if compliant then 0 else WEIGHT_POSTURE, true, now)
  }

  datatype Severity = SeverityHigh | SeverityLow | SeverityOther

  /** Report as a signal. */
  function DlpSignal<J, N>(jti: Option<J>, rule: N, severity: Severity, now: int): Obs<J, N> {
    Signal(jti, Dlp(rule), match severity case SeverityHigh => WEIGHT_DLP_HIGH case SeverityLow => WEIGHT_DLP_LOW
                                          case SeverityOther => WEIGHT_DLP_MEDIUM, false, now)
  }

  // ---- Runs of one subject ----

  ghost function Run<J, N>(os: seq<Obs<J, N>>): Subject<J, N> {
    if os == [] then NewSubject() else Step(Run(os[..|os| - 1]), os[|os| - 1])
  }

  ghost predicate CriticalAt<J, N>(os: seq<Obs<J, N>>, t: nat)
    requires t < |os|
  {
    IsCritical(Run(os[..t]), os[t])
  }

  ghost predicate FiresAt<J, N>(os: seq<Obs<J, N>>, t: nat)
    requires t < |os|
  {
    Fires(Run(os[..t]), os[t])
  }

  /** The session known after position t: the one a fire at t names. */
  ghost function Current<J, N>(os: seq<Obs<J, N>>, t: nat): Option<J>
    requires t < |os|
  {
    Target(Run(os[..t]), os[t])
  }

  /** The position of the last signal before t. */
  ghost predicate Previous<J, N>(os: seq<Obs<J, N>>, p: nat, t: nat)
    requires t <= |os|
  {
    p < t && os[p].Signal? && forall m :: p < m < t ==> os[m].Look?
  }

  lemma RunNext<J, N>(os: seq<Obs<J, N>>, t: nat)
    requires t < |os|
    ensures Run(os[..t + 1]) == Step(Run(os[..t]), os[t])
  {
    assert os[..t + 1][..t] == os[..t];
  }

  /** Between two signals neither the known session nor the fired one changes. */
  lemma {:induction false} SincePrevious<J, N>(os: seq<Obs<J, N>>, p: nat, t: nat)
    requires t <= |os| && Previous(os, p, t)
    ensures Run(os[..t]).lastJTI == Current(os, p)
    ensures Run(os[..t]).firedJTI == if CriticalAt(os, p) then Current(os, p) else None
    decreases t
  {
    hide IsCritical, FactorsAfter;
    RunNext(os, t - 1);
    if p < t - 1 {
      SincePrevious(os, p, t - 1);
    }
  }

  lemma {:induction false} BeforeAnySignal<J, N>(os: seq<Obs<J, N>>, t: nat)
    requires t <= |os| && forall m :: 0 <= m < t ==> os[m].Look?
    ensures Run(os[..t]).lastJTI == None && Run(os[..t]).firedJTI == None
    decreases t
  {
    if t > 0 {
      RunNext(os, t - 1);
      BeforeAnySignal(os, t - 1);
    }
  }

  ghost predicate Quiet<J, N>(os: seq<Obs<J, N>>, t: nat)
    requires t <= |os|
  {
    forall m :: 0 <= m < t ==> os[m].Look?
  }

  lemma {:induction false} FindPrevious<J, N>(os: seq<Obs<J, N>>, t: nat)
    requires t <= |os|
    ensures Quiet(os, t) || exists p: nat :: Previous(os, p, t)
    decreases t
  {
    if t > 0 {
      if os[t - 1].Signal? {
        assert Previous(os, t - 1, t);
      } else {
        FindPrevious(os, t - 1);
        if !Quiet(os, t - 1) {
          var p: nat :| Previous(os, p, t - 1);
          assert Previous(os, p, t);
        }
      }
    }
  }

  /**
   * When the callback runs, exactly: a critical signal about a known session, when there was no signal before, the
   * one before was not critical, or another session was the known one then.
   */
  lemma FiresExactly<J, N>(os: seq<Obs<J, N>>, t: nat)
    requires t < |os|
    ensures Quiet(os, t) ==> (FiresAt(os, t) <==> CriticalAt(os, t) && Current(os, t).Some?)
    ensures forall p: nat :: Previous(os, p, t) ==>
              (FiresAt(os, t) <==>
               CriticalAt(os, t) && Current(os, t).Some? && (!CriticalAt(os, p) || Current(os, p) != Current(os, t)))
    ensures FiresAt(os, t) ==> Current(os, t).Some?
  {
    hide IsCritical, FactorsAfter, Run;
    FindPrevious(os, t);
    if Quiet(os, t) {
      BeforeAnySignal(os, t);
    }
    forall p: nat | Previous(os, p, t)
      ensures FiresAt(os, t) <==>
              CriticalAt(os, t) && Current(os, t).Some? && (!CriticalAt(os, p) || Current(os, p) != Current(os, t))
    {
      SincePrevious(os, p, t);
    }
  }

  /** After every critical signal the known session is the one the callback was last given. */
  lemma {:induction false} CurrentSessionIsFired<J, N>(os: seq<Obs<J, N>>, t: nat) returns (u: nat)
    requires t < |os| && CriticalAt(os, t) && Current(os, t).Some?
    ensures u <= t && FiresAt(os, u) && Current(os, u) == Current(os, t)
    ensures forall v :: u < v <= t ==> !FiresAt(os, v)
    decreases t
  {
    hide IsCritical, Run, Target;
    FiresExactly(os, t);
    FindPrevious(os, t);
    u := t;
    if !FiresAt(os, t) {
      var p: nat :| Previous(os, p, t);
      u := CurrentSessionIsFired(os, p);
      forall v | p < v < t ensures !FiresAt(os, v) {
        LooksDoNotFire(os, v);
      }
    }
  }

  lemma LooksDoNotFire<J, N>(os: seq<Obs<J, N>>, t: nat)
    requires t < |os| && os[t].Look?
    ensures !FiresAt(os, t)
  {
  }

  /** At or before a critical signal about a session, and after any point from which on it must fire, it has fired. */
  lemma {:induction false} FireBack<J, N>(os: seq<Obs<J, N>>, lo: nat, t: nat) returns (u: nat)
    requires lo <= t < |os| && CriticalAt(os, t) && Current(os, t).Some?
    requires forall m :: lo <= m <= t && os[m].Signal? ==> CriticalAt(os, m)
    requires Quiet(os, lo)
             || exists p: nat :: Previous(os, p, lo) && (!CriticalAt(os, p) || Current(os, p) != Current(os, t))
    ensures lo <= u <= t && FiresAt(os, u) && Current(os, u) == Current(os, t)
    decreases t
  {
    hide IsCritical, Fires, Run, Target;
    FiresExactly(os, t);
    FindPrevious(os, t);
    u := t;
    if !FiresAt(os, t) {
      var p: nat :| Previous(os, p, t);
      assert CriticalAt(os, p) && Current(os, p) == Current(os, t);
      if p < lo {
        assert Previous(os, p, lo);
        OnePrevious(os, lo);
      } else {
        u := FireBack(os, lo, p);
      }
    }
  }

  lemma OnePrevious<J, N>(os: seq<Obs<J, N>>, t: nat)
    requires t <= |os|
    ensures forall p: nat, q: nat :: Previous(os, p, t) && Previous(os, q, t) ==> p == q
    ensures Quiet(os, t) ==> forall p: nat :: !Previous(os, p, t)
  {
  }

  // ---- Does a session fire twice? ----

  /** Positions a to b lie in one critical period that begins at a. */
  ghost predicate Period<J, N>(os: seq<Obs<J, N>>, a: nat, b: nat) {
    && a <= b <= |os|
    && (forall t :: a <= t < b && os[t].Signal? ==> CriticalAt(os, t))
    && (forall p: nat :: Previous(os, p, a) ==> !CriticalAt(os, p))
  }

  ghost predicate FiresDistinct<J, N>(os: seq<Obs<J, N>>, a: nat, b: nat)
    requires b <= |os|
  {
    forall s, t :: a <= s < t < b && FiresAt(os, s) && FiresAt(os, t) ==> Current(os, s) != Current(os, t)
  }

  /** No session comes back after another one has taken its place. */
  ghost predicate NoReturn<J, N>(os: seq<Obs<J, N>>, a: nat, b: nat)
    requires b <= |os|
  {
    forall s, m, t :: a <= s < m < t < b && os[s].Signal? && os[m].Signal? && os[t].Signal? ==>
      (Current(os, s) == Current(os, t) ==> Current(os, m) == Current(os, s))
  }

  lemma {:induction false} SessionStaysKnown<J, N>(os: seq<Obs<J, N>>, s: nat, t: nat)
    requires s <= t < |os| && Current(os, s).Some?
    ensures Current(os, t).Some?
    decreases t
  {
    hide IsCritical, FactorsAfter;
    if s < t {
      SessionStaysKnown(os, s, t - 1);
      RunNext(os, t - 1);
    }
  }

  /** Within a critical period all fires name different sessions exactly when no session comes back. */
  lemma FiresDistinctExactly<J, N>(os: seq<Obs<J, N>>, a: nat, b: nat)
    requires Period(os, a, b)
    ensures FiresDistinct(os, a, b) <==> NoReturn(os, a, b)
  {
    hide Run, Target, Fires, IsCritical;
    if NoReturn(os, a, b) {
      forall s, t | a <= s < t < b && FiresAt(os, s) && FiresAt(os, t) ensures Current(os, s) != Current(os, t) {
        SignalFires(os, s);
        SignalFires(os, t);
        FiresExactly(os, t);
        FindPrevious(os, t);
        var p: nat :| Previous(os, p, t);
        assert s <= p;
      }
    }
    if FiresDistinct(os, a, b) {
      forall s, m, t | a <= s < m < t < b && os[s].Signal? && os[m].Signal? && os[t].Signal?
                       && Current(os, s) == Current(os, t)
        ensures Current(os, m) == Current(os, s)
      {
        if Current(os, m) != Current(os, s) {
          TwoFires(os, a, b, s, m, t);
        }
      }
    }
  }

  lemma SignalFires<J, N>(os: seq<Obs<J, N>>, t: nat)
    requires t < |os| && FiresAt(os, t)
    ensures os[t].Signal?
  {
  }

  lemma TwoFires<J, N>(os: seq<Obs<J, N>>, a: nat, b: nat, s: nat, m: nat, t: nat)
    requires Period(os, a, b) && a <= s < m < t < b && os[s].Signal? && os[m].Signal? && os[t].Signal?
    requires Current(os, s) == Current(os, t) != Current(os, m)
    ensures !FiresDistinct(os, a, b)
  {
    hide Run, Target, Fires, IsCritical;
    if Current(os, m).Some? {
      SessionStaysKnown(os, m, t);
    } else {
      SessionStaysKnown(os, s, m);
    }
    FindPrevious(os, a);
    var u := FireBack(os, a, s);
    assert Previous(os, m, m + 1);
    var v := FireBack(os, m + 1, t);
  }

  /** It can come back: three non-compliant posture reports, about sessions a, b and a again, fire for a twice. */
  lemma SameSessionFiresTwice<J, N>(a: J, b: J) returns (os: seq<Obs<J, N>>)
    requires a != b
    ensures |os| == 3 && Period(os, 0, 3)
    ensures FiresAt(os, 0) && FiresAt(os, 2) && Current(os, 0) == Current(os, 2) == Some(a)
  {
    os := [PostureSignal(Some(a), false, 0), PostureSignal(Some(b), false, 0), PostureSignal(Some(a), false, 0)];
    forall t | 0 <= t < 3 ensures CriticalAt(os, t) {
      NonCompliantIsCritical(Run(os[..t]), os[t].jti, 0, os[..t]);
    }
    hide IsCritical, Run;
    assert Quiet(os, 0);
    FiresExactly(os, 0);
    FiresExactly(os, 2);
    assert Previous(os, 1, 2);
  }

  // ---- What the score means ----

  lemma {:induction false} SumPositive<N>(fs: Factors<N>, ids: set<FactorID<N>>)
    requires ids <= fs.Keys && forall id <- fs :: fs[id].weight > 0
    ensures Sum(fs, ids) >= 0
  {
    if ids != {} {
      var id :| id in ids;
      SumWithout(fs, ids, id);
      SumPositive(fs, ids - {id});
    }
  }

  lemma {:induction false} WeightsPositive<J, N>(os: seq<Obs<J, N>>)
    ensures forall id <- Run(os).factors :: Run(os).factors[id].weight > 0
  {
    if os != [] {
      WeightsPositive(os[..|os| - 1]);
    }
  }

  /** Signals only add risk: the score is the plain sum up to 100. */
  lemma ScoreIsCappedSum<J, N>(os: seq<Obs<J, N>>, now: int)
    ensures var live := Live(Run(os).factors, now);
      Score(Run(os).factors, now) == if Sum(live, live.Keys) > 100 then 100 else Sum(live, live.Keys)
  {
    WeightsPositive(os);
    var live := Live(Run(os).factors, now);
    SumPositive(live, live.Keys);
  }

  /** A non-compliant posture is critical by itself, whatever else is known. */
  lemma NonCompliantIsCritical<J, N>(s: Subject<J, N>, jti: Option<J>, now: int, os: seq<Obs<J, N>>)
    requires s == Run(os)
    ensures IsCritical(s, PostureSignal(jti, false, now))
  {
    WeightsPositive(os);
    var f := Factor(WEIGHT_POSTURE, None);
    var live := Live(Put(s.factors, Posture, f), now);
    SumWithout(live, live.Keys, Posture);
    SumPositive(live, live.Keys - {Posture});
  }

  /** A compliant one leaves no trace of earlier postures. */
  lemma CompliantClears<J, N>(s: Subject<J, N>, jti: Option<J>, now: int)
    ensures Posture !in Step(s, PostureSignal(jti, true, now)).factors
  {
  }

  /** High-severity findings of two rules within the life of the first are critical together. */
  lemma TwoHighFindingsAreCritical<J, N>(os: seq<Obs<J, N>>, jti: Option<J>, a: N, b: N, first: int, second: int)
    requires a != b && second <= first + EVENT_FACTOR_TTL
    ensures var s := Step(Run(os), DlpSignal(jti, a, SeverityHigh, first));
      IsCritical(s, DlpSignal(jti, b, SeverityHigh, second))
  {
    var o := DlpSignal(jti, a, SeverityHigh, first);
    var s := Step(Run(os), o);
    RunAppend(os, o);
    WeightsPositive(os + [o]);
    hide Run;
    var o' := DlpSignal(jti, b, SeverityHigh, second);
    var live := Live(Put(s.factors, o'.id, FactorOf(o')), second);
    assert s.factors[Dlp(a)] == Factor(WEIGHT_DLP_HIGH, Some(first + EVENT_FACTOR_TTL));
    assert live[Dlp(a)].weight == live[Dlp(b)].weight == WEIGHT_DLP_HIGH;
    SumWithout(live, live.Keys, Dlp(a));
    SumWithout(live, live.Keys - {Dlp(a)}, Dlp(b));
    SumPositive(live, live.Keys - {Dlp(a)} - {Dlp(b)});
  }

  /** Every signal is a finding of this one rule. */
  ghost predicate OneRule<J, N>(os: seq<Obs<J, N>>, rule: N) {
    forall i :: 0 <= i < |os| && os[i].Signal? ==>
      exists severity :: os[i] == DlpSignal(os[i].jti, rule, severity, os[i].now)
  }

  lemma {:induction false} OneRuleFactors<J, N>(os: seq<Obs<J, N>>, rule: N)
    requires OneRule(os, rule)
    ensures Run(os).factors.Keys <= {Dlp(rule)}
    ensures Dlp(rule) in Run(os).factors ==> Run(os).factors[Dlp(rule)].weight <= WEIGHT_DLP_HIGH
  {
    if os != [] {
      var n := |os| - 1;
      assert forall i :: 0 <= i < n ==> os[..n][i] == os[i];
      OneRuleFactors(os[..n], rule);
      if os[n].Signal? {
        var severity :| os[n] == DlpSignal(os[n].jti, rule, severity, os[n].now);
      }
    }
  }

  /** A finding replaces the last one of its rule: however often, one rule alone is never critical. */
  lemma OneRuleIsNeverCritical<J, N>(os: seq<Obs<J, N>>, rule: N, t: nat)
    requires OneRule(os, rule) && t < |os|
    ensures !CriticalAt(os, t)
  {
    OneRuleFactors(os[..t], rule);
    if os[t].Signal? {
      var severity :| os[t] == DlpSignal(os[t].jti, rule, severity, os[t].now);
      var live := Live(Put(Run(os[..t]).factors, os[t].id, FactorOf(os[t])), os[t].now);
      hide Run;
      assert live.Keys <= {Dlp(rule)};
      if live.Keys == {} {
      } else {
        assert live.Keys == {Dlp(rule)};
        SumWithout(live, live.Keys, Dlp(rule));
        assert live.Keys - {Dlp(rule)} == {};
      }
    }
  }

  // ---- All subjects ----

  datatype Event<K, J, N> = Event(k: K, o: Obs<J, N>)

  /** The state of the whole service after a run; assessing an unknown subject leaves no state. */
  ghost function RunAll<K, J, N>(es: seq<Event<K, J, N>>): map<K, Subject<J, N>> {
    if es == [] then map[] else
    var st, e := RunAll(es[..|es| - 1]), es[|es| - 1];
    if e.o.Look? && e.k !in st then st
    else st[e.k := Step(if e.k in st then st[e.k] else NewSubject(), e.o)]
  }

  ghost function OfSubject<K, J, N>(es: seq<Event<K, J, N>>, k: K): seq<Obs<J, N>> {
    if es == [] then [] else
    OfSubject(es[..|es| - 1], k) + if es[|es| - 1].k == k then [es[|es| - 1].o] else []
  }

  /** Subjects do not influence each other: each is as if its own signals were the only ones. */
  lemma {:induction false} SubjectsIndependent<K, J, N>(es: seq<Event<K, J, N>>, k: K)
    ensures (if k in RunAll(es) then RunAll(es)[k] else NewSubject()) == Run(OfSubject(es, k))
  {
    if es != [] {
      hide Step;
      var n := |es| - 1;
      SubjectsIndependent(es[..n], k);
      var before := OfSubject(es[..n], k);
      if es[n].k == k {
        RunAppend(before, es[n].o);
        if es[n].o.Look? && k !in RunAll(es[..n]) {
          LookAtNothing<J, N>(es[n].o);
        }
      } else {
        assert before + [] == before;
      }
    }
  }

  lemma RunAppend<J, N>(os: seq<Obs<J, N>>, o: Obs<J, N>)
    ensures Run(os + [o]) == Step(Run(os), o)
  {
    assert (os + [o])[..|os|] == os;
  }

  lemma LookAtNothing<J, N>(o: Obs<J, N>)
    requires o.Look?
    ensures Step(NewSubject<J, N>(), o) == NewSubject()
  {
  }

  // ---- Scores in numbers ----

  /** From 85 on a score is critical, from 60 high, from 30 medium. */
  lemma LevelMeaning(score: int)
    ensures LevelOf(score) == Critical <==> score >= 85
    ensures LevelOf(score) == High <==> 60 <= score < 85
    ensures LevelOf(score) == Medium <==> 30 <= score < 60
    ensures LevelOf(score) == Low <==> score < 30
  {
  }

  lemma OneFactorScore<N>(fs: Factors<N>, id: FactorID<N>, now: int)
    requires fs.Keys == {id}
    ensures Score(fs, now) == if ExpiredAt(fs[id], now) then 0 else Clamp(fs[id].weight)
  {
    var live := Live(fs, now);
    if !ExpiredAt(fs[id], now) {
      assert live.Keys == {id};
      SumWithout(live, live.Keys, id);
    } else {
      assert live.Keys == {};
    }
  }

  /**
   * What one signal about a new subject scores, from the moment it comes in: 90 for a device that does not comply, for
   * good; 50, 25 or 10 for a DLP finding, by severity, for 30 minutes (1800 seconds) and nothing from then on.
   */
  lemma SignalScores<J, N>(jti: Option<J>, rule: N, severity: Severity, now: int, later: int)
    requires now <= later
    ensures Score(Step(NewSubject(), PostureSignal<J, N>(jti, false, now)).factors, later) == 90
    ensures Score(Step(NewSubject(), PostureSignal<J, N>(jti, true, now)).factors, later) == 0
    ensures Score(Step(NewSubject(), DlpSignal(jti, rule, severity, now)).factors, later)
            == if later > now + 1_800_000_000_000 then 0
               else match severity case SeverityHigh => 50 case SeverityOther => 25 case SeverityLow => 10
  {
    hide Score;
    var s := NewSubject<J, N>();
    var posture, clear, dlp := PostureSignal<J, N>(jti, false, now), PostureSignal<J, N>(jti, true, now),
                               DlpSignal(jti, rule, severity, now);
    assert FactorsAfter(s, posture) == map[Posture := Factor(90, None)];
    OneFactorScore(FactorsAfter(s, posture), Posture, later);
    assert FactorsAfter(s, clear) == map[];
    EmptyScore<N>(later);
    assert FactorsAfter(s, dlp) == map[Dlp(rule) := FactorOf(dlp)];
    OneFactorScore(FactorsAfter(s, dlp), Dlp(rule), later);
  }

  lemma EmptyScore<N>(now: int)
    ensures Score<N>(map[], now) == 0
  {
    assert Live<N>(map[], now).Keys == {};
  }
}
