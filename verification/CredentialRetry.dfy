// Retrying credentials on one upstream node: which declarations are tried
// (proxy.go), how they share one deadline, and what a success promotes (dial.go).
module CredentialRetry {
  import opened Proxies
  import opened Credentials

  const MAX_CREDENTIAL_ALTERNATES := 8

  function CredentialsOf(px: Proxy): set<Credential> { (set c | c in px.alternates) + {px.credential} }

  // -------------------------------------------------------------- candidates

  // The credentials to try: the primary, then the alternates as declared, each
  // once. The bound is the list's own length, so it never binds.
  function Order(px: Proxy): seq<Credential> { [px.credential] + AppendNew(|px.alternates|, [], px.credential, px.alternates) }

  // Every credential of the node has its place in the order, and only one.
  lemma OrderIs(px: Proxy)
    ensures DistinctCredentials(Order(px)) && Order(px)[0] == px.credential && |Order(px)| == |CredentialsOf(px)|
    ensures forall c :: c in Order(px) <==> c in CredentialsOf(px)
  {
    var cs, r := px.alternates, AppendNew(|px.alternates|, [], px.credential, px.alternates);
    AppendNewIs(|cs|, [], px.credential, cs);
    SetBound(cs);
    var all := (set c | c in cs) - {px.credential};
    SubsetBound(all, set c | c in cs);
    AllCredentialsKept(|cs|, [], px.credential, cs, all);
    assert forall i | 0 <= i < |r| :: r[i] in r;
    DistinctCount(Order(px));
    assert (set c | c in Order(px)) == CredentialsOf(px);
  }

  lemma {:induction false} SetBound(cs: seq<Credential>)
    ensures |set c | c in cs| <= |cs|
  {
    if cs != [] {
      var init, last := cs[..|cs|-1], cs[|cs|-1];
      SetBound(init);
      assert (set c | c in cs) == (set c | c in init) + {last};
    }
  }

  lemma SubsetBound(a: set<Credential>, b: set<Credential>)
    requires a <= b
    ensures |a| <= |b|
  {
    assert |b - a| == |b| - |a|;
  }

  function CandidatesOf(px: Proxy, cs: seq<Credential>): (r: seq<Proxy>)
    ensures |r| == |cs|
  {
    seq(|cs|, i requires 0 <= i < |cs| => px.(credential := cs[i]))
  }

  // credentialCandidates
  method CredentialCandidates(px: Proxy) returns (out: seq<Proxy>)
    ensures out == CandidatesOf(px, Order(px))
  {
    var cs := px.alternates;
    var seen := {px.credential};
    out := [px];
    ghost var taken: seq<Credential> := [];
    for i := 0 to |cs|
      invariant taken == AppendNew(|cs|, [], px.credential, cs[..i]) && |taken| <= i
      invariant forall c :: c in seen <==> c == px.credential || c in taken
      invariant out == CandidatesOf(px, [px.credential] + taken)
    {
      assert cs[..i + 1][..i] == cs[..i];
      if cs[i] !in seen {
        seen := seen + {cs[i]};
        out := out + [px.(credential := cs[i])];
        taken := taken + [cs[i]];
      }
    }
    assert cs[..|cs|] == cs;
  }

  // --------------------------------------------------------------- promotion

  function Promoted(px: Proxy, successful: Proxy): Proxy {
    px.(credential := successful.credential,
        alternates := AppendNew(MAX_CREDENTIAL_ALTERNATES, [], successful.credential, [px.credential] + successful.alternates))
  }

  // promoteCredential: no set of what was seen here, the list itself is searched.
  method PromoteCredential(px: Proxy, successful: Proxy) returns (p: Proxy)
    ensures p == Promoted(px, successful)
  {
    var cs := [px.credential] + successful.alternates;
    var kept: seq<Credential> := [];
    for i := 0 to |cs|
      invariant kept == AppendNew(MAX_CREDENTIAL_ALTERNATES, [], successful.credential, cs[..i])
    {
      assert cs[..i + 1][..i] == cs[..i];
      if cs[i] != successful.credential && |kept| < MAX_CREDENTIAL_ALTERNATES {
        var there := Contains(kept, cs[i]);
        if !there { kept := kept + [cs[i]]; }
      }
    }
    assert cs[..|cs|] == cs;
    p := px.(credential := successful.credential, alternates := kept);
  }

  method Contains(cs: seq<Credential>, c: Credential) returns (there: bool)
    ensures there <==> c in cs
  {
    for i := 0 to |cs|
      invariant c !in cs[..i]
    {
      if cs[i] == c { return true; }
    }
    return false;
  }

  // Promoting one of the node's own credentials: it becomes the primary, the rest
  // are proper alternates, and none is lost if and only if there are at most nine.
  lemma PromotionKeepsCredentials(px: Proxy, c: Credential)
    requires c in CredentialsOf(px)
    ensures var p := Promoted(px, px.(credential := c));
            && p.credential == c && Alternates(MAX_CREDENTIAL_ALTERNATES, c, p.alternates)
            && CredentialsOf(p) <= CredentialsOf(px)
            && (CredentialsOf(p) == CredentialsOf(px) <==> |CredentialsOf(px)| <= MAX_CREDENTIAL_ALTERNATES + 1)
  {
    var p, cs := Promoted(px, px.(credential := c)), [px.credential] + px.alternates;
    AppendNewIs(MAX_CREDENTIAL_ALTERNATES, [], c, cs);
    DistinctCount(p.alternates);
    if |CredentialsOf(px)| <= MAX_CREDENTIAL_ALTERNATES + 1 {
      var all := CredentialsOf(px) - {c};
      assert |all| == |CredentialsOf(px)| - 1;
      AllCredentialsKept(MAX_CREDENTIAL_ALTERNATES, [], c, cs, all);
    }
  }

  // The documented case: eight alternates at most, nothing lost.
  lemma PromotionOfEight(px: Proxy, c: Credential)
    requires c in CredentialsOf(px) && |px.alternates| <= MAX_CREDENTIAL_ALTERNATES
    ensures CredentialsOf(Promoted(px, px.(credential := c))) == CredentialsOf(px)
  {
    SetBound(px.alternates);
    assert |CredentialsOf(px)| <= |set x | x in px.alternates| + 1;
    PromotionKeepsCredentials(px, c);
  }

  // -------------------------------------------------------------- the attempts

  datatype DialError = BadTimeout | AuthRejected(detail: string) | Upstream(detail: string) | ContextDone(detail: string) | DeadlineExceeded

  datatype Outcome = Up | Down(error: DialError)

  // What the world does in one round: whether the context is already done, the
  // clock when the budget is computed, and how the attempt ends.
  datatype Moment = Moment(stopped: Option<DialError>, now: int, outcome: Outcome)

  datatype Call = Call(credential: Credential, budget: int)

  datatype Dialed = Connected(px: Proxy) | Failed(px: Proxy, error: DialError)

  predicate AuthFailed(o: Outcome) { o.Down? && o.error.AuthRejected? }

  // Integer division of a duration, truncated toward zero.
  function Share(remaining: int, attemptsLeft: nat): int
    requires attemptsLeft > 0
  {
    if remaining >= 0 then remaining / attemptsLeft else -((-remaining) / attemptsLeft)
  }

  // The earlier of the caller's own deadline and the timeout.
  function DeadlineOf(start: int, timeout: int, parent: Option<int>): (d: int)
    ensures d <= start + timeout && (parent.Some? ==> d <= parent.value)
    ensures d == start + timeout || parent == Some(d)
  {
    if parent.Some? && parent.value < start + timeout then parent.value else start + timeout
  }

  function ResultOf(px: Proxy, cs: seq<Credential>, world: nat -> Moment, k: nat): Dialed
    requires k <= |cs|
  {
    if k == 0 then Failed(px, if world(0).stopped.Some? then world(0).stopped.value else DeadlineExceeded)
    else if world(k - 1).outcome.Up? then Connected(Promoted(px, px.(credential := cs[k - 1])))
    else Failed(px, world(k - 1).outcome.error)
  }

  // One call: the next credential in order, with its share of what is left, while
  // the context is not done.
  predicate Called(cs: seq<Credential>, deadline: int, world: nat -> Moment, i: nat, call: Call)
    requires i < |cs|
  {
    && world(i).stopped.None?
    && call.credential == cs[i]
    && call.budget == Share(deadline - world(i).now, |cs| - i) > 0
  }

  // Why there is no call after the first k.
  predicate Over(cs: seq<Credential>, deadline: int, world: nat -> Moment, k: nat)
    requires k <= |cs|
  {
    || k == |cs|
    || (k > 0 && !AuthFailed(world(k - 1).outcome))
    || world(k).stopped.Some?
    || Share(deadline - world(k).now, |cs| - k) <= 0
  }

  ghost predicate CallsGo(cs: seq<Credential>, deadline: int, world: nat -> Moment, calls: seq<Call>) {
    && |calls| <= |cs|
    && (forall i | 0 <= i < |calls| :: Called(cs, deadline, world, i, calls[i]))
    && (forall i | 0 <= i < |calls| - 1 :: AuthFailed(world(i).outcome))
  }

  // What a dial does, from the world it meets.
  ghost predicate Ran(px: Proxy, deadline: int, world: nat -> Moment, calls: seq<Call>, result: Dialed) {
    var cs := Order(px);
    && CallsGo(cs, deadline, world, calls)
    && Over(cs, deadline, world, |calls|)
    && result == ResultOf(px, cs, world, |calls|)
  }

  // Before a round: every call so far was rejected, the last one with this error.
  ghost predicate Rejected(cs: seq<Credential>, deadline: int, world: nat -> Moment, calls: seq<Call>, last: Option<DialError>) {
    && CallsGo(cs, deadline, world, calls)
    && (calls == [] ==> last.None?)
    && (calls != [] ==> AuthFailed(world(|calls| - 1).outcome) && last == Some(world(|calls| - 1).outcome.error))
  }

  lemma NextCall(cs: seq<Credential>, deadline: int, world: nat -> Moment, calls: seq<Call>, last: Option<DialError>, call: Call)
    requires Rejected(cs, deadline, world, calls, last) && |calls| < |cs| && Called(cs, deadline, world, |calls|, call)
    ensures CallsGo(cs, deadline, world, calls + [call])
  {
  }

  // dialUpstreamCredentialCandidatesContext
  method DialCandidates(px: Proxy, start: int, timeout: int, parent: Option<int>, world: nat -> Moment)
    returns (result: Dialed, calls: seq<Call>)
    ensures timeout <= 0 ==> calls == [] && result == Failed(px, BadTimeout)
    ensures timeout > 0 ==> Ran(px, DeadlineOf(start, timeout, parent), world, calls, result)
  {
    calls := [];
    if timeout <= 0 { return Failed(px, BadTimeout), calls; }
    var deadline := DeadlineOf(start, timeout, parent);
    var candidates := CredentialCandidates(px);
    var last: Option<DialError> := None;
    ghost var cs := Order(px);
    for index := 0 to |candidates|
      invariant |calls| == index && Rejected(cs, deadline, world, calls, last)
    {
      var moment := world(index);
      if moment.stopped.Some? {
        return Failed(px, if last.Some? then last.value else moment.stopped.value), calls;
      }
      var budget := Share(deadline - moment.now, |candidates| - index);
      if budget <= 0 { break; }
      NextCall(cs, deadline, world, calls, last, Call(cs[index], budget));
      calls := calls + [Call(candidates[index].credential, budget)];
      if moment.outcome.Up? {
        var p := PromoteCredential(px, candidates[index]);
        return Connected(p), calls;
      }
      if !moment.outcome.error.AuthRejected? { return Failed(px, moment.outcome.error), calls; }
      last := Some(moment.outcome.error);
    }
    result := Failed(px, if last.Some? then last.value else DeadlineExceeded);
  }

  // The world decides the run.
  lemma RanOnce(px: Proxy, deadline: int, world: nat -> Moment, calls: seq<Call>, result: Dialed, calls': seq<Call>, result': Dialed)
    requires Ran(px, deadline, world, calls, result) && Ran(px, deadline, world, calls', result')
    ensures calls == calls' && result == result'
  {
    SameCalls(Order(px), deadline, world, calls, calls');
    NotOverYet(Order(px), deadline, world, calls);
    NotOverYet(Order(px), deadline, world, calls');
  }

  lemma NotOverYet(cs: seq<Credential>, deadline: int, world: nat -> Moment, calls: seq<Call>)
    requires CallsGo(cs, deadline, world, calls)
    ensures forall k: nat | k < |calls| :: !Over(cs, deadline, world, k)
  {
    forall k: nat | k < |calls| ensures !Over(cs, deadline, world, k) {
      assert Called(cs, deadline, world, k, calls[k]);
      assert k > 0 ==> AuthFailed(world(k - 1).outcome);
    }
  }

  lemma SameCalls(cs: seq<Credential>, deadline: int, world: nat -> Moment, calls: seq<Call>, calls': seq<Call>)
    requires CallsGo(cs, deadline, world, calls) && CallsGo(cs, deadline, world, calls')
    ensures forall i | 0 <= i < |calls| && i < |calls'| :: calls[i] == calls'[i]
  {
    forall i | 0 <= i < |calls| && i < |calls'| ensures calls[i] == calls'[i] {
      assert Called(cs, deadline, world, i, calls[i]) && Called(cs, deadline, world, i, calls'[i]);
    }
  }

  // Each of the node's credentials is tried at most once, a foreign one never,
  // and a connection carries the promotion of the one tried last.
  lemma TriedOnce(px: Proxy, deadline: int, world: nat -> Moment, calls: seq<Call>, result: Dialed)
    requires Ran(px, deadline, world, calls, result)
    ensures forall i, j | 0 <= i < j < |calls| :: calls[i].credential != calls[j].credential
    ensures forall i | 0 <= i < |calls| :: calls[i].credential in CredentialsOf(px)
    ensures result.Connected? ==> calls != [] && result.px.credential == calls[|calls|-1].credential
    ensures result.Failed? ==> result.px == px
  {
    OrderIs(px);
    assert forall i | 0 <= i < |calls| :: Called(Order(px), deadline, world, i, calls[i]);
  }

  // How it ends: connected iff the attempt made last came up, on the node with
  // the credential that worked and no credential of another; else with the error
  // of that attempt, or, without one, the context's or the deadline's.  Only a
  // rejected credential is followed by the next.
  lemma DialMeans(px: Proxy, deadline: int, world: nat -> Moment, calls: seq<Call>, result: Dialed)
    requires Ran(px, deadline, world, calls, result)
    ensures result.Connected? <==> calls != [] && world(|calls| - 1).outcome == Up
    ensures result.Connected? ==>
              && result.px == px.(credential := calls[|calls|-1].credential, alternates := result.px.alternates)
              && CredentialsOf(result.px) <= CredentialsOf(px)
              && (|CredentialsOf(px)| <= 9 ==> CredentialsOf(result.px) == CredentialsOf(px))
    ensures result.Failed? && calls != [] ==> world(|calls| - 1).outcome == Down(result.error)
    ensures result.Failed? && calls == [] ==> result.error == if world(0).stopped.Some? then world(0).stopped.value else DeadlineExceeded
    ensures forall i | 0 <= i < |calls| - 1 :: world(i).outcome.Down? && world(i).outcome.error.AuthRejected?
  {
    var cs := Order(px);
    OrderIs(px);
    if calls != [] {
      assert Called(cs, deadline, world, |calls| - 1, calls[|calls|-1]);
      if world(|calls| - 1).outcome.Up? { PromotionKeepsCredentials(px, cs[|calls|-1]); }
    }
  }

  // -------------------------------------------------------------- the budgets

  // No attempt takes longer than it was given, and nothing else takes time.
  ghost predicate WithinBudgets(world: nat -> Moment, calls: seq<Call>) {
    forall i | 0 <= i < |calls| :: 0 <= world(i + 1).now - world(i).now <= calls[i].budget
  }

  lemma AtLeastShare(x: int, m: nat, b: int)
    requires m > 0 && x >= m * b
    ensures x / m >= b
  {
    assert x < m * (x / m) + m == m * (x / m + 1);
    MulMono(m, x / m + 1, b);
  }

  lemma MulMono(m: nat, a: int, b: int)
    ensures a <= b ==> m * a <= m * b
  {
  }

  // Of what is left, a share is at most its part, and leaves the same for each of
  // the others.
  lemma ShareLeaves(remaining: int, k: nat, used: int)
    requires k > 1 && remaining >= 0 && 0 <= used <= Share(remaining, k)
    ensures remaining - used >= 0 && Share(remaining - used, k - 1) >= Share(remaining, k)
  {
    var b := remaining / k;
    assert k * b <= remaining;
    assert (k - 1) * b == k * b - b;
    AtLeastShare(remaining - used, k - 1, b);
  }

  lemma ShareSign(remaining: int, k: nat)
    requires k > 0
    ensures remaining <= 0 ==> Share(remaining, k) <= 0
  {
  }

  lemma ShareAtMost(remaining: int, k: nat)
    requires k > 0 && Share(remaining, k) > 0
    ensures 0 < Share(remaining, k) <= remaining
  {
    ShareSign(remaining, k);
    var b := remaining / k;
    assert k * b <= remaining;
    MulMono(b, 1, k);
  }

  // Where the run stands before round i: never past the deadline, and with at
  // least the first share left for it.
  lemma {:induction false} BudgetsGrow(cs: seq<Credential>, deadline: int, world: nat -> Moment, calls: seq<Call>, i: nat)
    requires CallsGo(cs, deadline, world, calls) && WithinBudgets(world, calls) && calls != [] && i <= |calls|
    ensures world(0).now <= world(i).now <= deadline
    ensures forall j | 0 <= j <= i && i < |cs| && j < |calls| :: Share(deadline - world(i).now, |cs| - i) >= calls[j].budget
  {
    if i == 0 {
      assert Called(cs, deadline, world, 0, calls[0]);
      ShareAtMost(deadline - world(0).now, |cs|);
    } else {
      BudgetsGrow(cs, deadline, world, calls, i - 1);
      assert Called(cs, deadline, world, i - 1, calls[i - 1]);
      var left, k := deadline - world(i - 1).now, |cs| - (i - 1);
      ShareAtMost(left, k);
      if i < |cs| { ShareLeaves(left, k, world(i).now - world(i - 1).now); }
      if i < |calls| { assert Called(cs, deadline, world, i, calls[i]); }
    }
  }

  // Main result on the deadline: with attempts within their budgets, budgets never
  // shrink, each is at least the first fair share, time already spent and the next
  // budget together never pass the deadline, and nor does the run.
  lemma FairShares(px: Proxy, deadline: int, world: nat -> Moment, calls: seq<Call>, result: Dialed)
    requires Ran(px, deadline, world, calls, result) && WithinBudgets(world, calls)
    ensures forall i, j | 0 <= i <= j < |calls| :: calls[i].budget <= calls[j].budget
    ensures forall i | 0 <= i < |calls| :: calls[i].budget >= (deadline - world(0).now) / |CredentialsOf(px)|
    ensures forall i | 0 <= i < |calls| :: (world(i).now - world(0).now) + calls[i].budget <= deadline - world(0).now
    ensures calls != [] ==> world(|calls|).now <= deadline
  {
    var cs := Order(px);
    OrderIs(px);
    if calls != [] {
      assert Called(cs, deadline, world, 0, calls[0]);
      ShareAtMost(deadline - world(0).now, |cs|);
      BudgetsGrow(cs, deadline, world, calls, |calls|);
    }
    forall j | 0 <= j < |calls|
      ensures calls[j].budget <= deadline - world(j).now && forall i | 0 <= i <= j :: calls[i].budget <= calls[j].budget
    {
      assert Called(cs, deadline, world, j, calls[j]);
      ShareAtMost(deadline - world(j).now, |cs| - j);
      BudgetsGrow(cs, deadline, world, calls, j);
    }
  }

  // A stalled exchange starves no later credential: with a whole unit of time for
  // each, attempts within budget and a live context, the dial ends only with an
  // answer other than a rejection or after every credential was tried.
  lemma NoneStarved(px: Proxy, deadline: int, world: nat -> Moment, calls: seq<Call>, result: Dialed)
    requires Ran(px, deadline, world, calls, result) && WithinBudgets(world, calls)
    requires deadline - world(0).now >= |CredentialsOf(px)| && forall i :: world(i).stopped.None?
    ensures calls != [] && (!AuthFailed(world(|calls| - 1).outcome) || |calls| == |CredentialsOf(px)|)
  {
    var cs := Order(px);
    OrderIs(px);
    AtLeastShare(deadline - world(0).now, |cs|, 1);
    if calls != [] {
      assert Called(cs, deadline, world, 0, calls[0]);
      BudgetsGrow(cs, deadline, world, calls, |calls|);
    }
  }

  // ------------------------------------------------------- do the budgets add up?

  function Total(calls: seq<Call>): int {
    if calls == [] then 0 else Total(calls[..|calls|-1]) + calls[|calls|-1].budget
  }

  // Attempts that use up their budgets get no more, together, than there was.
  lemma {:induction false} StalledTotal(cs: seq<Credential>, deadline: int, world: nat -> Moment, calls: seq<Call>)
    requires CallsGo(cs, deadline, world, calls)
    requires forall i | 0 <= i < |calls| :: world(i + 1).now - world(i).now == calls[i].budget
    ensures Total(calls) == world(|calls|).now - world(0).now
    ensures calls != [] ==> Total(calls) <= deadline - world(0).now
  {
    if calls != [] {
      var before, n := calls[..|calls|-1], |calls| - 1;
      forall i | 0 <= i < |before| ensures Called(cs, deadline, world, i, before[i]) { assert Called(cs, deadline, world, i, calls[i]); }
      StalledTotal(cs, deadline, world, before);
      assert Called(cs, deadline, world, n, calls[n]);
      ShareAtMost(deadline - world(n).now, |cs| - n);
    }
  }

  lemma {:induction false} TotalAtLeast(calls: seq<Call>)
    requires |calls| >= 2 && forall i | 0 <= i < |calls| :: calls[i].budget > 0
    ensures Total(calls) > calls[|calls|-1].budget
  {
    var before := calls[..|calls|-1];
    TotalPositive(before);
  }

  lemma {:induction false} TotalPositive(calls: seq<Call>)
    requires calls != [] && forall i | 0 <= i < |calls| :: calls[i].budget > 0
    ensures Total(calls) > 0
  {
    if |calls| > 1 { TotalPositive(calls[..|calls|-1]); } else { assert calls[..0] == []; }
  }

  // Every credential rejected at once.
  function Instant(): nat -> Moment { (i: nat) => Moment(None, 0, Down(AuthRejected(""))) }

  function InstantCalls(cs: seq<Credential>, deadline: int): seq<Call>
    requires deadline >= 0
  {
    seq(|cs|, i requires 0 <= i < |cs| => Call(cs[i], deadline / (|cs| - i)))
  }

  // Attempts that end early pass their time on, so the budgets of a run within
  // budgets add up to no more than the time there was, whatever happens, if and
  // only if there is a single credential or not even a unit of time for each.
  ghost predicate AlwaysAddsUp(px: Proxy, time: nat) {
    forall world: nat -> Moment, calls, result |
      world(0).now == 0 && Ran(px, time, world, calls, result) && WithinBudgets(world, calls) :: Total(calls) <= time
  }

  lemma AddsUpExactlyWhen(px: Proxy, time: nat)
    ensures AlwaysAddsUp(px, time) <==> |CredentialsOf(px)| == 1 || time < |CredentialsOf(px)|
  {
    OrderIs(px);
    if |CredentialsOf(px)| == 1 || time < |CredentialsOf(px)| {
      forall world: nat -> Moment, calls, result | world(0).now == 0 && Ran(px, time, world, calls, result) ensures Total(calls) <= time {
        FewCalls(px, time, world, calls, result);
      }
    } else {
      EarlyAnswersAddMore(px, time);
    }
  }

  lemma FewCalls(px: Proxy, time: nat, world: nat -> Moment, calls: seq<Call>, result: Dialed)
    requires |CredentialsOf(px)| == 1 || time < |CredentialsOf(px)|
    requires world(0).now == 0 && Ran(px, time, world, calls, result)
    ensures Total(calls) <= time
  {
    OrderIs(px);
    AtMostOneCall(Order(px), time, world, calls);
  }

  lemma AtMostOneCall(cs: seq<Credential>, time: nat, world: nat -> Moment, calls: seq<Call>)
    requires |cs| == 1 || time < |cs|
    requires world(0).now == 0 && CallsGo(cs, time, world, calls)
    ensures |calls| <= 1 && Total(calls) <= time
  {
    if calls != [] {
      assert Called(cs, time, world, 0, calls[0]);
      ShareOfOne(time, |cs|, calls[0].budget);
      assert calls[..0] == [] && Total(calls) == calls[0].budget;
    }
  }

  lemma ShareOfOne(time: nat, k: nat, share: int)
    requires k > 0 && share == Share(time, k) > 0
    ensures k <= time && (k == 1 ==> share == time)
  {
    ShareAtMost(time, k);
    if k > 1 { AtLeastWhole(time, k); }
  }

  lemma AtLeastWhole(time: nat, k: nat)
    requires k > 0 && time / k > 0
    ensures k <= time
  {
    MulMono(k, 1, time / k);
  }

  lemma EarlyAnswersAddMore(px: Proxy, time: nat)
    requires |CredentialsOf(px)| > 1 && time >= |CredentialsOf(px)|
    ensures !AlwaysAddsUp(px, time)
  {
    OrderIs(px);
    var cs, world := Order(px), Instant();
    var calls := InstantCalls(cs, time);
    forall i | 0 <= i < |calls| ensures Called(cs, time, world, i, calls[i]) { AtLeastShare(time, |cs| - i, 1); }
    assert Ran(px, time, world, calls, ResultOf(px, cs, world, |cs|));
    assert WithinBudgets(world, calls);
    assert calls[|calls| - 1].budget == time;
    TotalAtLeast(calls);
  }
}
