/** Signature requests: one token for each signer, rotated by reminders, until everyone
    has signed or the request is cancelled or runs out. */
module Signatures {
  import opened Basics

  const SECONDS_PER_DAY := 86400

  datatype Status = Awaiting | Complete | Cancelled

  datatype Signer = Signer(hash: Hash, signedAt: Option<int>)

  /** Signers are listed by position. */
  datatype Request = Request(status: Status, expiresAt: Option<int>, signers: seq<Signer>)

  type Requests = map<Id, Request>

  /** A token handed out to one signer of one request. */
  datatype Issue = Issue(token: Id, request: Id, position: nat)

  /** `next` supplies fresh ids and tokens; `issued` logs the tokens in the order they
      were handed out, `announced` the published completions. */
  datatype World = World(requests: Requests, next: Id, issued: seq<Issue>, announced: seq<Id>)

  const EMPTY := World(map[], 0, [], [])

  predicate IsExpired(req: Request, now: int) {
    req.expiresAt.Some? && req.expiresAt.value <= now
  }

  predicate IsActive(req: Request, now: int) {
    req.status == Awaiting && !IsExpired(req, now)
  }

  predicate AllSigned(signers: seq<Signer>) {
    forall i :: 0 <= i < |signers| ==> signers[i].signedAt.Some?
  }

  predicate HasSigner(requests: Requests, r: Id, i: int) {
    r in requests && 0 <= i < |requests[r].signers|
  }

  /** What the signing link of `token` leads to. */
  predicate OpensTo(requests: Requests, token: Id, now: int, r: Id, i: int) {
    && HasSigner(requests, r, i) && requests[r].signers[i].hash == Hash(token)
    && requests[r].signers[i].signedAt.None? && IsActive(requests[r], now)
  }

  // ---------------------------------------------------------------- handing out tokens

  /** How many of the first n signers have not signed. */
  function Unsigned(signers: seq<Signer>, n: nat): (k: nat)
    requires n <= |signers|
    ensures k <= n
  {
    if n == 0 then 0 else Unsigned(signers, n - 1) + if signers[n - 1].signedAt.None? then 1 else 0
  }

  /** A fresh token for every unsigned signer among the first n. */
  function Reissued(signers: seq<Signer>, n: nat, next: Id): seq<Signer>
    requires n <= |signers|
  {
    seq(|signers|, i requires 0 <= i < |signers| =>
      if i < n && signers[i].signedAt.None? then signers[i].(hash := Hash(next + Unsigned(signers, i)))
      else signers[i])
  }

  function Issues(r: Id, signers: seq<Signer>, n: nat, next: Id): seq<Issue>
    requires n <= |signers|
  {
    if n == 0 then []
    else
      Issues(r, signers, n - 1, next) +
        if signers[n - 1].signedAt.None? then [Issue(next + Unsigned(signers, n - 1), r, n - 1)] else []
  }

  /** The latest token issued to a signer. */
  function Latest(issued: seq<Issue>, r: Id, i: nat): Option<Id> {
    if issued == [] then None
    else
      var last := issued[|issued| - 1];
      if last.request == r && last.position == i then Some(last.token)
      else Latest(issued[..|issued| - 1], r, i)
  }

  /** Latest in the log means: issued to that signer, and nothing issued to it since. */
  lemma {:induction false} LatestIsLast(issued: seq<Issue>, r: Id, i: nat, token: Id)
    ensures Latest(issued, r, i) == Some(token) <==>
      exists k :: 0 <= k < |issued| && issued[k] == Issue(token, r, i)
        && forall l :: k < l < |issued| ==> !(issued[l].request == r && issued[l].position == i)
  {
    if issued != [] {
      var init, n := issued[..|issued| - 1], |issued| - 1;
      LatestIsLast(init, r, i, token);
      if issued[n].request == r && issued[n].position == i {
        if issued[n].token == token {
          assert issued[n] == Issue(token, r, i);
        }
      } else if Latest(init, r, i) == Some(token) {
        var k :| 0 <= k < n && init[k] == Issue(token, r, i)
          && forall l :: k < l < n ==> !(init[l].request == r && init[l].position == i);
        assert issued[k] == Issue(token, r, i);
        assert forall l :: k < l < |issued| ==>
          !(issued[l].request == r && issued[l].position == i) || (l < n && issued[l] == init[l]);
      } else {
        forall k | 0 <= k < |issued| && issued[k] == Issue(token, r, i)
          ensures exists l :: k < l < |issued| && issued[l].request == r && issued[l].position == i
        {
          assert k < n && init[k] == Issue(token, r, i);
          var l :| k < l < n && init[l].request == r && init[l].position == i;
          assert issued[l] == init[l];
        }
      }
    }
  }

  lemma {:induction false} LatestConcat(a: seq<Issue>, b: seq<Issue>, r: Id, i: nat)
    ensures Latest(a + b, r, i) == if Latest(b, r, i).Some? then Latest(b, r, i) else Latest(a, r, i)
  {
    if b == [] {
      assert a + b == a;
    } else {
      LatestConcat(a, b[..|b| - 1], r, i);
      assert (a + b)[..|a + b| - 1] == a + b[..|b| - 1];
    }
  }

  lemma {:induction false} LatestInIssues(q: Id, signers: seq<Signer>, n: nat, next: Id, r: Id, i: nat)
    requires n <= |signers|
    ensures Latest(Issues(q, signers, n, next), r, i)
      == if r == q && i < n && signers[i].signedAt.None? then Some(next + Unsigned(signers, i)) else None
  {
    if n > 0 {
      LatestInIssues(q, signers, n - 1, next, r, i);
      var before := Issues(q, signers, n - 1, next);
      if signers[n - 1].signedAt.None? {
        var e := Issue(next + Unsigned(signers, n - 1), q, n - 1);
        assert (before + [e])[..|before|] == before;
      } else {
        assert Issues(q, signers, n, next) == before;
      }
    }
  }

  // ---------------------------------------------------------------- steps

  datatype Step =
    | Create(signers: nat, expiresInDays: Option<int>, now: int)
    | Reissue(r: Id, now: int)
    | Cancel(r: Id)
    | Sign(r: Id, i: nat, now: int)

  /** When each operation goes through; otherwise it is refused and changes nothing. */
  predicate Accepts(w: World, s: Step) {
    match s
    case Create(signers, _, _) => signers > 0
    case Reissue(r, now) => r in w.requests && IsActive(w.requests[r], now)
    case Cancel(r) => r in w.requests && w.requests[r].status == Awaiting
    case Sign(r, i, now) =>
      HasSigner(w.requests, r, i) && w.requests[r].signers[i].signedAt.None? && IsActive(w.requests[r], now)
  }

  function Blank(n: nat): seq<Signer> {
    seq(n, _ => Signer(Hash(0), None))
  }

  /** No days, or zero days, means no expiry. */
  function ExpiryFor(expiresInDays: Option<int>, now: int): Option<int> {
    if expiresInDays.Some? && expiresInDays.value != 0
    then Some(now + expiresInDays.value * SECONDS_PER_DAY) else None
  }

  function WithTokens(w: World, r: Id, req: Request): World {
    var n := |req.signers|;
    World(w.requests[r := req.(signers := Reissued(req.signers, n, w.next))],
          w.next + Unsigned(req.signers, n), w.issued + Issues(r, req.signers, n, w.next), w.announced)
  }

  function Signed(w: World, r: Id, i: nat, now: int): World
    requires HasSigner(w.requests, r, i)
  {
    var req := w.requests[r];
    var signers := req.signers[i := req.signers[i].(signedAt := Some(now))];
    if AllSigned(signers) then
      w.(requests := w.requests[r := req.(signers := signers, status := Complete)], announced := w.announced + [r])
    else w.(requests := w.requests[r := req.(signers := signers)])
  }

  function Apply(w: World, s: Step): World {
    if !Accepts(w, s) then w
    else
      match s
      case Create(signers, expiresInDays, now) =>
        WithTokens(w.(next := w.next + 1), w.next, Request(Awaiting, ExpiryFor(expiresInDays, now), Blank(signers)))
      case Reissue(r, _) => WithTokens(w, r, w.requests[r])
      case Cancel(r) => w.(requests := w.requests[r := w.requests[r].(status := Cancelled)])
      case Sign(r, i, now) => Signed(w, r, i, now)
  }

  ghost predicate IsRun(worlds: seq<World>, steps: seq<Step>) {
    && |worlds| == |steps| + 1 && worlds[0] == EMPTY
    && forall k :: 0 <= k < |steps| ==> worlds[k + 1] == Apply(worlds[k], steps[k])
  }

  // ---------------------------------------------------------------- the invariant

  /** Complete exactly when everyone has signed; nobody to sign is impossible. */
  ghost predicate CompleteIffSigned(requests: Requests) {
    forall r :: r in requests ==>
      requests[r].signers != [] && (requests[r].status == Complete <==> AllSigned(requests[r].signers))
  }

  ghost predicate TokensAreLatest(w: World) {
    forall r, i :: HasSigner(w.requests, r, i) ==>
      Latest(w.issued, r, i) == Some(w.requests[r].signers[i].hash.token)
  }

  ghost predicate IssuesAreFresh(w: World) {
    && (forall r :: r in w.requests ==> r < w.next)
    && (forall k :: 0 <= k < |w.issued| ==>
          w.issued[k].token < w.next && HasSigner(w.requests, w.issued[k].request, w.issued[k].position))
    && (forall k, l :: 0 <= k < l < |w.issued| ==> w.issued[k].token != w.issued[l].token)
  }

  ghost predicate AnnouncedOnce(w: World) {
    forall r :: multiset(w.announced)[r] == if r in w.requests && w.requests[r].status == Complete then 1 else 0
  }

  ghost predicate Sound(w: World) {
    CompleteIffSigned(w.requests) && TokensAreLatest(w) && IssuesAreFresh(w) && AnnouncedOnce(w)
  }

  lemma {:induction false} IssuesAreInRange(r: Id, signers: seq<Signer>, n: nat, next: Id)
    requires n <= |signers|
    ensures forall k :: 0 <= k < |Issues(r, signers, n, next)| ==>
      var e := Issues(r, signers, n, next)[k];
      e.request == r && e.position < n && next <= e.token < next + Unsigned(signers, n)
    ensures forall k, l :: 0 <= k < l < |Issues(r, signers, n, next)| ==>
      Issues(r, signers, n, next)[k].token != Issues(r, signers, n, next)[l].token
  {
    if n > 0 {
      IssuesAreInRange(r, signers, n - 1, next);
    }
  }

  /** Handing out tokens keeps tokens latest and fresh; `w` may lack request r so far. */
  lemma TokensStayLatest(w: World, r: Id, req: Request)
    requires TokensAreLatest(w) && (r in w.requests ==> w.requests[r].signers == req.signers)
    requires r !in w.requests ==> forall i :: 0 <= i < |req.signers| ==> req.signers[i].signedAt.None?
    ensures TokensAreLatest(WithTokens(w, r, req))
  {
    var w' := WithTokens(w, r, req);
    forall q, i | HasSigner(w'.requests, q, i)
      ensures Latest(w'.issued, q, i) == Some(w'.requests[q].signers[i].hash.token)
    {
      LatestConcat(w.issued, Issues(r, req.signers, |req.signers|, w.next), q, i);
      LatestInIssues(r, req.signers, |req.signers|, w.next, q, i);
      assert q != r || !req.signers[i].signedAt.None? ==> HasSigner(w.requests, q, i);
    }
  }

  lemma TokensStayFresh(w: World, r: Id, req: Request)
    requires IssuesAreFresh(w) && r < w.next && (r in w.requests ==> w.requests[r].signers == req.signers)
    ensures IssuesAreFresh(WithTokens(w, r, req))
  {
    var w' := WithTokens(w, r, req);
    IssuesAreInRange(r, req.signers, |req.signers|, w.next);
    forall k | 0 <= k < |w'.issued|
      ensures w'.issued[k].token < w'.next && HasSigner(w'.requests, w'.issued[k].request, w'.issued[k].position)
    {
      if k < |w.issued| {
        assert w'.issued[k] == w.issued[k];
      } else {
        assert w'.issued[k] == Issues(r, req.signers, |req.signers|, w.next)[k - |w.issued|];
      }
    }
  }

  lemma ReissuedSameSignatures(signers: seq<Signer>, next: Id)
    ensures AllSigned(Reissued(signers, |signers|, next)) <==> AllSigned(signers)
  {
    var after := Reissued(signers, |signers|, next);
    assert forall i :: 0 <= i < |signers| ==> after[i].signedAt == signers[i].signedAt;
  }

  lemma WithTokensKeepsSound(w: World, r: Id, req: Request)
    requires Sound(w) && r < w.next && req.signers != [] && req.status == Awaiting && !AllSigned(req.signers)
    requires r in w.requests ==> w.requests[r] == req
    requires r !in w.requests ==> forall i :: 0 <= i < |req.signers| ==> req.signers[i].signedAt.None?
    ensures Sound(WithTokens(w, r, req))
  {
    TokensStayLatest(w, r, req);
    TokensStayFresh(w, r, req);
    ReissuedSameSignatures(req.signers, w.next);
    var w' := WithTokens(w, r, req);
    assert AnnouncedOnce(w') by {
      forall q
        ensures multiset(w'.announced)[q] == if q in w'.requests && w'.requests[q].status == Complete then 1 else 0
      {
        assert multiset(w.announced)[q] == if q in w.requests && w.requests[q].status == Complete then 1 else 0;
      }
    }
  }

  /** Changing signatures or status touches no token. */
  lemma SameTokensStayLatest(w: World, w': World)
    requires TokensAreLatest(w) && IssuesAreFresh(w) && w'.issued == w.issued && w'.next == w.next
    requires w'.requests.Keys == w.requests.Keys
    requires forall r :: r in w.requests ==> |w'.requests[r].signers| == |w.requests[r].signers|
    requires forall r, i :: HasSigner(w.requests, r, i) ==>
      w'.requests[r].signers[i].hash == w.requests[r].signers[i].hash
    ensures TokensAreLatest(w') && IssuesAreFresh(w')
  {
    forall r, i
      ensures HasSigner(w'.requests, r, i) <==> HasSigner(w.requests, r, i)
    {
    }
  }

  lemma SignKeepsSound(w: World, r: Id, i: nat, now: int)
    requires Sound(w) && Accepts(w, Sign(r, i, now))
    ensures Sound(Signed(w, r, i, now))
  {
    var w' := Signed(w, r, i, now);
    SameTokensStayLatest(w, w');
    forall q
      ensures multiset(w'.announced)[q] == if q in w'.requests && w'.requests[q].status == Complete then 1 else 0
    {
      assert multiset(w.announced)[q] == if q in w.requests && w.requests[q].status == Complete then 1 else 0;
    }
  }

  lemma CancelKeepsSound(w: World, r: Id)
    requires Sound(w) && Accepts(w, Cancel(r))
    ensures Sound(Apply(w, Cancel(r)))
  {
    var w' := Apply(w, Cancel(r));
    SameTokensStayLatest(w, w');
    forall q
      ensures multiset(w'.announced)[q] == if q in w'.requests && w'.requests[q].status == Complete then 1 else 0
    {
      assert multiset(w.announced)[q] == if q in w.requests && w.requests[q].status == Complete then 1 else 0;
    }
  }

  lemma CreateKeepsSound(w: World, signers: nat, expiresInDays: Option<int>, now: int)
    requires Sound(w) && signers > 0
    ensures Sound(Apply(w, Create(signers, expiresInDays, now)))
  {
    var later := w.(next := w.next + 1);
    assert Blank(signers)[0].signedAt.None?;
    WithTokensKeepsSound(later, w.next, Request(Awaiting, ExpiryFor(expiresInDays, now), Blank(signers)));
  }

  lemma StepKeepsSound(w: World, s: Step)
    requires Sound(w)
    ensures Sound(Apply(w, s))
  {
    if Accepts(w, s) {
      match s
      case Create(signers, expiresInDays, now) => CreateKeepsSound(w, signers, expiresInDays, now);
      case Reissue(r, _) => WithTokensKeepsSound(w, r, w.requests[r]);
      case Cancel(r) => CancelKeepsSound(w, r);
      case Sign(r, i, now) => SignKeepsSound(w, r, i, now);
    }
  }

  lemma {:induction false} RunIsSound(worlds: seq<World>, steps: seq<Step>, n: nat)
    requires IsRun(worlds, steps) && n <= |steps|
    ensures Sound(worlds[n])
  {
    if n > 0 {
      RunIsSound(worlds, steps, n - 1);
      StepKeepsSound(worlds[n - 1], steps[n - 1]);
      assert worlds[n] == Apply(worlds[n - 1], steps[n - 1]);
    }
  }

  // ---------------------------------------------------------------- theorems

  /** In every run a request is complete if and only if all its signers have signed, and
      its completion has then been announced exactly once. */
  lemma CompleteExactlyWhenAllSigned(worlds: seq<World>, steps: seq<Step>, n: nat, r: Id)
    requires IsRun(worlds, steps) && n <= |steps| && r in worlds[n].requests
    ensures var req := worlds[n].requests[r];
      && (req.status == Complete <==> forall i :: 0 <= i < |req.signers| ==> req.signers[i].signedAt.Some?)
      && multiset(worlds[n].announced)[r] == if req.status == Complete then 1 else 0
  {
    RunIsSound(worlds, steps, n);
  }

  /** A token leads to a signer exactly when it is the latest one issued to that signer,
      the signer has not signed, and the request is active and not expired. */
  lemma TokenOpensExactly(worlds: seq<World>, steps: seq<Step>, n: nat, token: Id, now: int, r: Id, i: nat)
    requires IsRun(worlds, steps) && n <= |steps|
    ensures var w := worlds[n];
      OpensTo(w.requests, token, now, r, i) <==>
        && HasSigner(w.requests, r, i) && Latest(w.issued, r, i) == Some(token)
        && w.requests[r].signers[i].signedAt.None?
        && w.requests[r].status == Awaiting
        && (w.requests[r].expiresAt.Some? ==> now < w.requests[r].expiresAt.value)
  {
    RunIsSound(worlds, steps, n);
    if HasSigner(worlds[n].requests, r, i) {
      assert worlds[n].requests[r].signers[i].hash == Hash(worlds[n].requests[r].signers[i].hash.token);
    }
  }

  /** A token leads to one signer only. */
  lemma HashesAreUnique(w: World, r: Id, i: nat, q: Id, j: nat)
    requires Sound(w) && HasSigner(w.requests, r, i) && HasSigner(w.requests, q, j)
    requires w.requests[r].signers[i].hash == w.requests[q].signers[j].hash
    ensures r == q && i == j
  {
    var token := w.requests[r].signers[i].hash.token;
    LatestIsLast(w.issued, r, i, token);
    LatestIsLast(w.issued, q, j, token);
    var k :| 0 <= k < |w.issued| && w.issued[k] == Issue(token, r, i);
    var l :| 0 <= l < |w.issued| && w.issued[l] == Issue(token, q, j);
    assert k == l;
  }

  lemma StepKeepsEndings(w: World, s: Step, r: Id, i: nat)
    requires Sound(w) && HasSigner(w.requests, r, i)
    ensures var w' := Apply(w, s);
      && HasSigner(w'.requests, r, i)
      && (w.requests[r].status != Awaiting ==> w'.requests[r] == w.requests[r])
      && (w.requests[r].signers[i].signedAt.Some? ==> w'.requests[r].signers[i] == w.requests[r].signers[i])
  {
  }

  /** Complete and cancelled are final, and so is every signature. */
  lemma {:induction false} EndingsAreFinal(worlds: seq<World>, steps: seq<Step>, m: nat, n: nat, r: Id, i: nat)
    requires IsRun(worlds, steps) && m <= n <= |steps| && HasSigner(worlds[m].requests, r, i)
    ensures HasSigner(worlds[n].requests, r, i)
    ensures worlds[m].requests[r].status != Awaiting ==> worlds[n].requests[r] == worlds[m].requests[r]
    ensures worlds[m].requests[r].signers[i].signedAt.Some? ==>
      worlds[n].requests[r].signers[i] == worlds[m].requests[r].signers[i]
  {
    if m < n {
      EndingsAreFinal(worlds, steps, m, n - 1, r, i);
      RunIsSound(worlds, steps, n - 1);
      StepKeepsEndings(worlds[n - 1], steps[n - 1], r, i);
      assert worlds[n] == Apply(worlds[n - 1], steps[n - 1]);
    }
  }

  lemma StepKeepsExpiry(w: World, s: Step, r: Id)
    requires Sound(w) && r in w.requests
    ensures r in Apply(w, s).requests && Apply(w, s).requests[r].expiresAt == w.requests[r].expiresAt
  {
  }

  lemma {:induction false} ExpiryIsKept(worlds: seq<World>, steps: seq<Step>, m: nat, n: nat, r: Id)
    requires IsRun(worlds, steps) && m <= n <= |steps| && r in worlds[m].requests
    ensures r in worlds[n].requests && worlds[n].requests[r].expiresAt == worlds[m].requests[r].expiresAt
  {
    if m < n {
      ExpiryIsKept(worlds, steps, m, n - 1, r);
      RunIsSound(worlds, steps, n - 1);
      StepKeepsExpiry(worlds[n - 1], steps[n - 1], r);
      assert worlds[n] == Apply(worlds[n - 1], steps[n - 1]);
    }
  }

  /** In every run the links of a request created for so many days work for that many times
      86400 seconds from its creation and no longer; created for no days, or zero, they do not
      run out. */
  lemma LinksLastTheirDays(worlds: seq<World>, steps: seq<Step>, k: nat, n: nat, token: Id, now: int, i: nat)
    requires IsRun(worlds, steps) && k < n <= |steps| && steps[k].Create? && steps[k].signers > 0
    ensures var r, w, days := worlds[k].next, worlds[n], steps[k].expiresInDays;
      && r in w.requests
      && (OpensTo(w.requests, token, now, r, i) <==>
            && i < |w.requests[r].signers| && Latest(w.issued, r, i) == Some(token)
            && w.requests[r].signers[i].signedAt.None? && w.requests[r].status == Awaiting
            && (days.None? || days.value == 0 || now < steps[k].now + days.value * 86400))
  {
    assert worlds[k + 1] == Apply(worlds[k], steps[k]);
    ExpiryIsKept(worlds, steps, k + 1, n, worlds[k].next);
    TokenOpensExactly(worlds, steps, n, token, now, worlds[k].next, i);
  }

  // ---------------------------------------------------------------- the service

  datatype Refusal = NoSigners | NotActive | NotFound

  /** Every unsigned signer has a token from `next` on, no two the same; signed ones are as they
      were. */
  ghost predicate GetFreshTokens(before: seq<Signer>, after: seq<Signer>, next: Id) {
    && |after| == |before|
    && (forall i :: 0 <= i < |before| ==>
          && after[i].signedAt == before[i].signedAt
          && (before[i].signedAt.Some? ==> after[i] == before[i])
          && (before[i].signedAt.None? ==> after[i].hash.token >= next))
    && (forall i, j :: 0 <= i < j < |before| && before[i].signedAt.None? && before[j].signedAt.None? ==>
          after[i].hash != after[j].hash)
  }

  lemma {:induction false} UnsignedGrows(signers: seq<Signer>, i: nat, j: nat)
    requires i < j <= |signers| && signers[i].signedAt.None?
    ensures Unsigned(signers, i) < Unsigned(signers, j)
  {
    if i < j - 1 { UnsignedGrows(signers, i, j - 1); }
  }

  lemma ReissuedAreFresh(signers: seq<Signer>, next: Id)
    ensures GetFreshTokens(signers, Reissued(signers, |signers|, next), next)
  {
    forall i, j | 0 <= i < j < |signers| && signers[i].signedAt.None? && signers[j].signedAt.None?
      ensures Unsigned(signers, i) != Unsigned(signers, j)
    {
      UnsignedGrows(signers, i, j);
    }
  }

  class SignatureStore {
    var requests: Requests
    var next: Id
    ghost var issued: seq<Issue>
    var announced: seq<Id>

    ghost function View(): World
      reads this
    {
      World(requests, next, issued, announced)
    }

    constructor ()
      ensures View() == EMPTY
    {
      requests, next, issued, announced := map[], 0, [], [];
    }

    /** Give every unsigned signer of `req` a fresh token, one after the other. */
    method HandOutTokens(r: Id, req: Request)
      modifies this`requests, this`next, this`issued
      ensures View() == WithTokens(old(View()), r, req)
    {
      var signers := req.signers;
      for i := 0 to |signers|
        invariant signers == Reissued(req.signers, i, old(next))
        invariant next == old(next) + Unsigned(req.signers, i)
        invariant issued == old(issued) + Issues(r, req.signers, i, old(next))
        invariant requests == old(requests)
      {
        if signers[i].signedAt.None? {
          signers := signers[i := signers[i].(hash := Hash(next))];
          issued := issued + [Issue(next, r, i)];
          next := next + 1;
        }
      }
      requests := requests[r := req.(signers := signers)];
    }

    method CreateRequest(signers: nat, expiresInDays: Option<int>, now: int) returns (answer: Result<Id, Refusal>)
      modifies this
      ensures View() == Apply(old(View()), Create(signers, expiresInDays, now))
      ensures answer == if signers == 0 then Err(NoSigners) else Ok(old(next))
      ensures answer.Ok? ==>
        var r := old(next);
        && requests == old(requests)[r := requests[r]] && requests[r].status == Awaiting
        && |requests[r].signers| == signers
        && (forall i :: 0 <= i < signers ==> requests[r].signers[i].signedAt.None?)
        && requests[r].expiresAt == if expiresInDays.None? || expiresInDays.value == 0 then None
                                    else Some(now + expiresInDays.value * 86400)
    {
      if signers == 0 {
        return Err(NoSigners);
      }
      var r := next;
      next := next + 1;
      HandOutTokens(r, Request(Awaiting, ExpiryFor(expiresInDays, now), Blank(signers)));
      answer := Ok(r);
    }

    method ReissueUnsigned(r: Id, now: int) returns (ok: bool)
      requires r in requests
      modifies this
      ensures View() == Apply(old(View()), Reissue(r, now))
      ensures ok <==>
        && old(requests)[r].status == Awaiting
        && (old(requests)[r].expiresAt.Some? ==> now < old(requests)[r].expiresAt.value)
      ensures ok ==>
        && requests == old(requests)[r := old(requests)[r].(signers := requests[r].signers)]
        && GetFreshTokens(old(requests)[r].signers, requests[r].signers, old(next))
      ensures !ok ==> View() == old(View())
    {
      ok := IsActive(requests[r], now);
      if ok {
        ReissuedAreFresh(requests[r].signers, next);
        HandOutTokens(r, requests[r]);
      }
    }

    method CancelRequest(r: Id) returns (ok: bool)
      requires r in requests
      modifies this`requests
      ensures View() == Apply(old(View()), Cancel(r))
      ensures ok <==> old(requests)[r].status == Awaiting
      ensures requests == if ok then old(requests)[r := old(requests)[r].(status := Cancelled)] else old(requests)
    {
      ok := requests[r].status == Awaiting;
      if ok {
        requests := requests[r := requests[r].(status := Cancelled)];
      }
    }

    /** One answer for everything that cannot be signed. */
    method OpenForSigning(token: Id, now: int) returns (answer: Result<(Id, nat), Refusal>)
      requires Sound(View())
      ensures answer.Ok? ==> OpensTo(requests, token, now, answer.value.0, answer.value.1)
      ensures answer.Err? ==> forall r, i :: !OpensTo(requests, token, now, r, i)
    {
      var matching := set r, i | r in requests && 0 <= i < |requests[r].signers|
                                 && requests[r].signers[i].hash == Hash(token) :: (r, i);
      if matching == {} {
        forall r, i
          ensures !OpensTo(requests, token, now, r, i)
        {
          assert !OpensTo(requests, token, now, r, i) || (r, i) in matching;
        }
        return Err(NotFound);
      }
      var found :| found in matching;
      var (r, i) := found;
      if requests[r].signers[i].signedAt.Some? || !IsActive(requests[r], now) {
        forall q, j | HasSigner(requests, q, j) && requests[q].signers[j].hash == Hash(token)
          ensures q == r && j == i
        {
          HashesAreUnique(View(), q, j, r, i);
        }
        return Err(NotFound);
      }
      answer := Ok((r, i));
    }

    method RecordSignature(r: Id, i: nat, now: int) returns (ok: bool)
      requires HasSigner(requests, r, i)
      modifies this`requests, this`announced
      ensures View() == Apply(old(View()), Sign(r, i, now))
      ensures ok <==>
        && old(requests)[r].status == Awaiting && old(requests)[r].signers[i].signedAt.None?
        && (old(requests)[r].expiresAt.Some? ==> now < old(requests)[r].expiresAt.value)
      ensures requests == old(requests)[r := requests[r]]
      ensures ok ==>
        requests[r].signers == old(requests)[r].signers[i := old(requests)[r].signers[i].(signedAt := Some(now))]
      ensures ok ==> (requests[r].status == Complete <==>
        forall j :: 0 <= j < |requests[r].signers| ==> requests[r].signers[j].signedAt.Some?)
    {
      var req := requests[r];
      if req.signers[i].signedAt.Some? || !IsActive(req, now) {
        return false;
      }
      var signers := req.signers[i := req.signers[i].(signedAt := Some(now))];
      requests := requests[r := req.(signers := signers)];
      if AllSigned(signers) {
        requests := requests[r := requests[r].(status := Complete)];
        announced := announced + [r];
      }
      ok := true;
    }
  }
}
