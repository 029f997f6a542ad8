/**
 Verification of single transactions by the auth service (cita-auth/src/handler.rs):
 a cache of verdicts in front of the window of recent hashes. The main result is
 that a transaction which has been included in a block is never accepted again.
 */
module AuthReplay {
  import opened Basics
  import opened AuthWindow

  datatype Auth = Auth(window: Window, cache: map<Hash, Verdict>)

  const START: Auth := Auth(EMPTY, map[])

  /** First half of taking a block's hashes: forget their verdicts. */
  function Purge(s: Auth, hs: set<Hash>): Auth {
    s.(cache := s.cache - hs)
  }

  /** Second half: enter them into the window. */
  function Admit(s: Auth, h: nat, hs: set<Hash>): Auth
    requires WindowInv(s.window)
  {
    s.(window := Deliver(s.window, h, hs))
  }

  /** A worker verifies a request and remembers the verdict. */
  function Verify(s: Auth, req: Request): Auth {
    s.(cache := s.cache[req.hash := VerdictFor(s.window, req)])
  }

  /** The verdict on a transaction submitted on its own: the valid-until check,
      then the remembered verdict, then verification. */
  function SingleVerdict(s: Auth, req: Request): Verdict {
    if !ValidUntil(s.window, req.validUntil) then InvalidUntilBlock
    else if req.hash in s.cache then s.cache[req.hash]
    else VerdictFor(s.window, req)
  }

  // ---------------------------------------------------------------------
  // Runs
  // ---------------------------------------------------------------------

  datatype Event = Delivered(height: nat) | Verified(request: Request)

  /** `chain(h)` are the transaction hashes of block `h`. */
  ghost function Step(chain: nat -> set<Hash>, s: Auth, e: Event): Auth
    requires WindowInv(s.window)
  {
    match e
    case Delivered(h) => Admit(Purge(s, chain(h)), h, chain(h))
    case Verified(req) => Verify(s, req)
  }

  /** No hash in the window has a remembered OK. */
  ghost predicate CacheClean(s: Auth) {
    forall x :: x in s.cache && s.cache[x] == OK ==> !HashExists(s.window, x)
  }

  ghost predicate AuthInv(chain: nat -> set<Hash>, s: Auth) {
    && WindowInv(s.window)
    && (forall k :: k in s.window.hashes ==> s.window.hashes[k] == chain(k))
    && CacheClean(s)
  }

  lemma StepKeepsInv(chain: nat -> set<Hash>, s: Auth, e: Event)
    requires AuthInv(chain, s)
    ensures AuthInv(chain, Step(chain, s, e))
  {
    match e
    case Delivered(h) =>
      DeliverKeepsInv(s.window, h, chain(h));
      PurgedDeliveryIsClean(s, h, chain(h));
    case Verified(req) =>
  }

  ghost function Run(chain: nat -> set<Hash>, events: seq<Event>): (s: Auth)
    ensures AuthInv(chain, s)
  {
    if events == [] then START
    else
      var n := |events| - 1;
      var s := Run(chain, events[..n]);
      StepKeepsInv(chain, s, events[n]);
      Step(chain, s, events[n])
  }

  /** Replay safety, over whole runs: a transaction accepted when block `a` was the
      newest, and contained in a later block `b`, is refused at every later time
      at which block `b` has arrived - whatever was delivered or verified in
      between, in whatever order. */
  lemma ReplaySafety(chain: nat -> set<Hash>, before: seq<Event>, between: seq<Event>, first: Request, again: Request, b: nat)
    requires first.hash == again.hash && first.validUntil == again.validUntil && first.hash in chain(b)
    ensures
      var s, t := Run(chain, before), Run(chain, before + between);
      SingleVerdict(s, first) == OK && IsBefore(s.window, b) && HasReached(t.window, b) ==>
        SingleVerdict(t, again) != OK
  {
    hide Run, SingleVerdict;
    var s, t := Run(chain, before), Run(chain, before + between);
    if SingleVerdict(s, first) == OK && IsBefore(s.window, b) && HasReached(t.window, b) {
      RefusedOnceIncluded(chain, s, t, first, again, b);
    }
  }

  /** Either block `b` is still in the window, or the transaction is past the height
      until which it was valid. */
  lemma RefusedOnceIncluded(chain: nat -> set<Hash>, s: Auth, t: Auth, first: Request, again: Request, b: nat)
    requires AuthInv(chain, t)
    requires first.hash == again.hash && first.validUntil == again.validUntil && first.hash in chain(b)
    requires SingleVerdict(s, first) == OK && IsBefore(s.window, b) && HasReached(t.window, b)
    ensures SingleVerdict(t, again) != OK
  {
    if b in t.window.hashes {
      assert HashExists(t.window, again.hash);
    }
    if t.window.inited {
      ReadyCovers(t.window, b);
    }
  }

  predicate IsBefore(w: Window, b: nat) {
    w.latest.Some? && w.latest.value < b
  }

  predicate HasReached(w: Window, b: nat) {
    w.latest.Some? && b <= w.latest.value
  }

  /** And nothing else is refused: in a ready window a request that has no verdict yet, is
      well formed, valid until one of the next BLOCKLIMIT blocks and in none of the last
      BLOCKLIMIT is accepted. */
  lemma NewIsAccepted(chain: nat -> set<Hash>, s: Auth, req: Request)
    requires AuthInv(chain, s) && s.window.inited && req.hash !in s.cache && Acceptable(req)
    requires s.window.latest.value < req.validUntil <= s.window.latest.value + 100
    requires forall b: nat :: b <= s.window.latest.value < b + 100 ==> req.hash !in chain(b)
    ensures SingleVerdict(s, req) == OK
  {
    VerificationAloneForgets(chain, s, req);
  }

  /** A request outside its valid-until range is refused as such, whatever else is known. */
  lemma ValidUntilDecides(s: Auth, req: Request)
    requires WindowInv(s.window)
    ensures SingleVerdict(s, req) == InvalidUntilBlock ||
            (s.window.latest.Some? && s.window.latest.value < req.validUntil <= s.window.latest.value + 100)
    ensures s.window.latest.None? || !(s.window.latest.value < req.validUntil <= s.window.latest.value + 100) ==>
              SingleVerdict(s, req) == InvalidUntilBlock
  {
  }

  // ---------------------------------------------------------------------
  // How far the steps may be pulled apart
  // ---------------------------------------------------------------------

  /** All that verification asks of a request besides its hash. */
  predicate Acceptable(req: Request) {
    req.nonceLength <= MAX_NONCE_LENGTH && req.recovered.Some? && (req.signer.Some? ==> req.signer == req.recovered)
  }

  /** Verification alone, without the valid-until check, tells the transactions of past
      blocks apart exactly while their block is in the window: if a request waits
      between the two checks until BLOCKLIMIT newer blocks have arrived, nothing stops it. */
  lemma VerificationAloneForgets(chain: nat -> set<Hash>, s: Auth, req: Request)
    requires AuthInv(chain, s) && s.window.inited
    ensures
      var latest := s.window.latest.value;
      && (VerdictFor(s.window, req) == OK <==>
          Acceptable(req) && forall b: nat :: b <= latest && req.hash in chain(b) ==> latest >= b + BLOCKLIMIT)
      && (VerdictFor(s.window, req) == Dup <==>
          req.nonceLength <= MAX_NONCE_LENGTH && exists b: nat :: b <= latest < b + BLOCKLIMIT && req.hash in chain(b))
  {
    var latest := s.window.latest.value;
    forall b: nat
      ensures b in s.window.hashes <==> b <= latest < b + BLOCKLIMIT
    {
      ReadyCovers(s.window, b);
    }
    if b: nat :| b <= latest < b + BLOCKLIMIT && req.hash in chain(b) {
      assert req.hash in s.window.hashes[b];
    }
  }

  /** Requests verified one after the other. */
  function VerifyAll(s: Auth, reqs: seq<Request>): (t: Auth)
    ensures t.window == s.window
    decreases |reqs|
  {
    if reqs == [] then s else VerifyAll(Verify(s, reqs[0]), reqs[1..])
  }

  /** The last request for a hash. */
  function LastFor(reqs: seq<Request>, x: Hash): (r: Option<Request>)
    ensures r.Some? ==> r.value in reqs && r.value.hash == x
    ensures r.None? ==> forall i :: 0 <= i < |reqs| ==> reqs[i].hash != x
    decreases |reqs|
  {
    if reqs == [] then None
    else
      var later := LastFor(reqs[1..], x);
      if later.Some? then later
      else if reqs[0].hash == x then Some(reqs[0])
      else
        assert forall i :: 1 <= i < |reqs| ==> reqs[i] == reqs[1..][i - 1];
        None
  }

  lemma {:induction false} CachedAfter(s: Auth, reqs: seq<Request>, x: Hash)
    ensures
      Get(VerifyAll(s, reqs).cache, x) ==
      match LastFor(reqs, x)
      case Some(req) => Some(VerdictFor(s.window, req))
      case None => Get(s.cache, x)
    decreases |reqs|
  {
    if reqs != [] {
      CachedAfter(Verify(s, reqs[0]), reqs[1..], x);
    }
  }

  /** The last request for some hash of a block is found OK by a window without it. */
  predicate SlipsIn(w: Window, hs: set<Hash>, between: seq<Request>) {
    exists x :: x in hs && LastFor(between, x).Some? && VerdictFor(w, LastFor(between, x).value) == OK
  }

  /** The source forgets the verdicts of a block and enters its hashes under two
      different locks. If workers verify requests in between, the cache stays clean
      exactly if the block is not taken, or no hash of it has a request in between the
      last of which is OK by the window as it was. */
  lemma CleanIffNothingSlippedIn(s: Auth, h: nat, hs: set<Hash>, between: seq<Request>)
    requires WindowInv(s.window) && CacheClean(s)
    ensures CacheClean(Admit(VerifyAll(Purge(s, hs), between), h, hs)) <==>
            !(Enters(s.window, h) && SlipsIn(s.window, hs, between))
  {
    var m := VerifyAll(Purge(s, hs), between);
    VerifyAllClean(Purge(s, hs), between);
    forall x | x in hs
      ensures x in m.cache && m.cache[x] == OK <==>
              LastFor(between, x).Some? && VerdictFor(s.window, LastFor(between, x).value) == OK
    {
      CachedAfter(Purge(s, hs), between, x);
    }
    CleanAfterDelivery(m, h, hs);
  }

  /** Entering hashes soils the cache exactly if one of them has a remembered OK. */
  lemma CleanAfterDelivery(m: Auth, h: nat, hs: set<Hash>)
    requires WindowInv(m.window) && CacheClean(m)
    ensures CacheClean(Admit(m, h, hs)) <==>
            !(Enters(m.window, h) && exists x :: x in hs && x in m.cache && m.cache[x] == OK)
  {
    var t := Admit(m, h, hs);
    DeliverKeepsInv(m.window, h, hs);
    assert Enters(m.window, h) ==> h in t.window.hashes && t.window.hashes[h] == hs;
    assert forall k :: k in t.window.hashes && (k != h || !Enters(m.window, h)) ==>
             k in m.window.hashes && t.window.hashes[k] == m.window.hashes[k];
    if x :| Enters(m.window, h) && x in hs && x in m.cache && m.cache[x] == OK {
      assert InWindow(t.window, x);
    } else {
      forall x | x in t.cache && t.cache[x] == OK
        ensures !HashExists(t.window, x)
      {
        assert !HashExists(m.window, x);
      }
    }
  }

  /** And it matters: a transaction of the block that slipped in is accepted again,
      although its hash is in the window. */
  lemma SlippedInIsAccepted(s: Auth, h: nat, hs: set<Hash>, between: seq<Request>, again: Request)
    requires WindowInv(s.window) && CacheClean(s) && Enters(s.window, h) && again.hash in hs
    requires LastFor(between, again.hash).Some? && VerdictFor(s.window, LastFor(between, again.hash).value) == OK
    ensures
      var t := Admit(VerifyAll(Purge(s, hs), between), h, hs);
      && InWindow(t.window, again.hash)
      && (SingleVerdict(t, again) == OK <==> ValidUntil(t.window, again.validUntil))
  {
    CachedAfter(Purge(s, hs), between, again.hash);
    var t := Admit(VerifyAll(Purge(s, hs), between), h, hs);
    assert h in t.window.hashes && t.window.hashes[h] == hs;
  }

  lemma {:induction false} VerifyAllClean(s: Auth, reqs: seq<Request>)
    requires CacheClean(s)
    ensures CacheClean(VerifyAll(s, reqs))
    decreases |reqs|
  {
    if reqs != [] {
      VerifyAllClean(Verify(s, reqs[0]), reqs[1..]);
    }
  }

  // ---------------------------------------------------------------------
  // The service
  // ---------------------------------------------------------------------

  datatype VerifyResult = VerifyNotBegin | VerifySucceeded | VerifyFailed

  function Elements(xs: seq<Hash>): set<Hash> {
    set x | x in xs
  }

  class Service {
    const verifier: Verifier
    var cache: map<Hash, Verdict>

    function View(): Auth
      reads this, verifier
    {
      Auth(verifier.View(), cache)
    }

    ghost predicate Valid()
      reads this, verifier
    {
      verifier.Valid() && CacheClean(View())
    }

    constructor ()
      ensures Valid() && View() == START && fresh(verifier)
    {
      verifier := new Verifier();
      cache := map[];
    }

    /** Takes the hashes of a block. `forwarded`: the block is the newest one and
        is passed on to the transaction pool. */
    method HandleBlockTxHashes(height: nat, txHashes: seq<Hash>) returns (requested: seq<nat>, forwarded: bool)
      requires Valid()
      modifies this, verifier
      ensures Valid()
      ensures View() == Admit(Purge(old(View()), Elements(txHashes)), height, Elements(txHashes))
      ensures forwarded <==> verifier.View().latest == Some(height)
    {
      hide Deliver, WindowInv, CacheClean;
      ghost var s := View();
      var hs := ForgetVerdicts(txHashes);
      PurgedDeliveryIsClean(s, height, hs);
      requested := verifier.UpdateHashes(height, hs);
      forwarded := true;
      if verifier.heightLatest.Some? && verifier.heightLatest.value != height {
        forwarded := false;
      }
      SomeLatest(s.window, height, hs);
    }

    /** Drops the verdicts of a block's transactions and collects their hashes. */
    method ForgetVerdicts(txHashes: seq<Hash>) returns (hs: set<Hash>)
      modifies `cache
      ensures hs == Elements(txHashes) && cache == old(cache) - hs
    {
      hs := {};
      for i := 0 to |txHashes|
        invariant hs == Elements(txHashes[..i]) && cache == old(cache) - hs
      {
        assert Elements(txHashes[..i + 1]) == Elements(txHashes[..i]) + {txHashes[i]};
        cache := cache - {txHashes[i]};
        hs := hs + {txHashes[i]};
      }
      assert txHashes[..|txHashes|] == txHashes;
    }

    /** Verifies a group of requests, last one first; `responses` in that order. */
    method VerifyTxGroup(group: seq<Request>) returns (responses: seq<(Hash, Verdict)>)
      requires Valid()
      modifies `cache
      ensures Valid() && View() == VerifyAll(old(View()), Reverse(group))
      ensures |responses| == |group|
      ensures forall i :: 0 <= i < |group| ==>
                var req := group[|group| - 1 - i];
                responses[i] == (req.hash, VerdictFor(old(View()).window, req))
    {
      ghost var s := View();
      responses := [];
      var left := group;
      while left != []
        invariant left <= group && |responses| == |group| - |left|
        invariant Valid() && View().window == s.window
        invariant VerifyAll(View(), Reverse(left)) == VerifyAll(s, Reverse(group))
        invariant forall i :: 0 <= i < |responses| ==>
                    var req := group[|group| - 1 - i];
                    responses[i] == (req.hash, VerdictFor(s.window, req))
        decreases |left|
      {
        var req := left[|left| - 1];
        ghost var was := left;
        left := left[..|left| - 1];
        var response := verifier.VerifyTx(req);
        cache := cache[req.hash := response];
        responses := responses + [(req.hash, response)];
        assert was == left + [req];
        ReverseConcat(left, [req]);
        assert Reverse(was) == [req] + Reverse(left);
        assert ([req] + Reverse(left))[1..] == Reverse(left);
      }
    }

    /** `check_verify_request_preprocess`: answers from the valid-until check or the
        cache if it can. `reply` is sent for a single request only. */
    method Preprocess(req: Request, single: bool) returns (result: VerifyResult, reply: Option<Verdict>)
      ensures single && !ValidUntil(View().window, req.validUntil) ==>
                result == VerifyFailed && reply == Some(InvalidUntilBlock)
      ensures (single ==> ValidUntil(View().window, req.validUntil)) && req.hash in cache ==>
                && result == (if cache[req.hash] == OK then VerifySucceeded else VerifyFailed)
                && reply == if single then Some(cache[req.hash]) else None
      ensures result == VerifyNotBegin <==>
                (single ==> ValidUntil(View().window, req.validUntil)) && req.hash !in cache
      ensures result == VerifyNotBegin ==> reply == None
      ensures reply.Some? ==> reply.value == SingleVerdict(View(), req)
    {
      var final: Option<Verdict> := None;
      var latest := verifier.heightLatest;
      if single && !(latest.Some? && latest.value < req.validUntil <= latest.value + BLOCKLIMIT) {
        final := Some(InvalidUntilBlock);
      } else if req.hash in cache {
        final := Some(cache[req.hash]);
      }
      result, reply := VerifyNotBegin, None;
      if final.Some? {
        result := if final.value == OK then VerifySucceeded else VerifyFailed;
        if single {
          reply := final;
        }
      }
    }
  }

  lemma SomeLatest(w: Window, h: nat, hs: set<Hash>)
    requires WindowInv(w)
    ensures Deliver(w, h, hs).latest.Some?
  {
  }

  lemma PurgedDeliveryIsClean(s: Auth, h: nat, hs: set<Hash>)
    requires WindowInv(s.window) && CacheClean(s)
    ensures CacheClean(Admit(Purge(s, hs), h, hs))
    ensures forall x :: Get(Admit(Purge(s, hs), h, hs).cache, x) == if x in hs then None else Get(s.cache, x)
  {
    DeliverKeepsInv(s.window, h, hs);
    var t := Admit(Purge(s, hs), h, hs);
    forall x | x in t.cache && t.cache[x] == OK
      ensures !HashExists(t.window, x)
    {
      assert !HashExists(s.window, x);
      assert forall k :: k in t.window.hashes ==>
               (k in s.window.hashes && t.window.hashes[k] == s.window.hashes[k]) || t.window.hashes[k] == hs;
    }
  }
}
