/**
 The window of recent blocks kept by the auth service (cita-auth/src/verifier.rs):
 the transaction hashes of the last BLOCKLIMIT blocks, filled in any order.
 */
module AuthWindow {
  import opened Basics

  type Hash(==, !new)
  type PubKey(==, !new)

  const BLOCKLIMIT: nat := 100

  /** `inited` once the hashes of the whole window have been delivered. */
  datatype Window = Window(inited: bool, latest: Option<nat>, low: Option<nat>, hashes: map<nat, set<Hash>>)

  const EMPTY: Window := Window(false, None, None, map[])

  /** A request: `recovered` is the key its signature recovers to, if it is well
      formed; `signer` is the key it claims, if any. */
  datatype Request = Request(hash: Hash, nonceLength: nat, validUntil: nat, recovered: Option<PubKey>, signer: Option<PubKey>)

  datatype Verdict = OK | InvalidNonce | Dup | NotReady | BadSig | InvalidUntilBlock

  const MAX_NONCE_LENGTH: nat := 128

  /** The lowest height of a window that ends at `h`. */
  function Low(h: nat): nat {
    if h < BLOCKLIMIT then 0 else h - BLOCKLIMIT + 1
  }

  predicate Within(lo: nat, k: nat, hi: nat) {
    lo <= k <= hi
  }

  function Interval(lo: nat, hi: nat): set<nat> {
    set k: nat | lo <= k <= hi && Within(lo, k, hi)
  }

  /** The heights from `lo` up to but excluding `hi`. */
  function Span(lo: nat, hi: nat): (r: seq<nat>)
    requires lo <= hi
    ensures |r| == hi - lo && (hi > lo ==> r[0] == lo && r[|r| - 1] == hi - 1)
    ensures forall i :: 0 < i < |r| ==> r[i] == r[i - 1] + 1
  {
    seq(hi - lo, i requires 0 <= i => lo + i)
  }

  // ---------------------------------------------------------------------
  // Deliveries
  // ---------------------------------------------------------------------

  /** Enters a set of hashes; the window is ready when no height is missing. */
  function Insert(w: Window, h: nat, hs: set<Hash>): Window
    requires w.latest.Some? && w.low.Some?
  {
    var hashes := w.hashes[h := hs];
    w.(hashes := hashes, inited := w.inited || |hashes| == w.latest.value - w.low.value + 1)
  }

  /** The effect of delivering the hashes of block `h`. */
  function Deliver(w: Window, h: nat, hs: set<Hash>): Window
    requires w.latest.Some? <==> w.low.Some?
  {
    if w.latest.None? then Insert(w.(latest := Some(h), low := Some(Low(h))), h, hs)
    else if h == w.latest.value + 1 then
      Insert(w.(latest := Some(h), low := Some(Low(h)), hashes := map k | k in w.hashes && k >= Low(h) :: w.hashes[k]), h, hs)
    else if h > w.latest.value + 1 || h < w.low.value then w
    else Insert(w, h, hs)
  }

  /** The window ends at the newest height, holds nothing outside it and is ready
      exactly when every height in it is filled. */
  ghost predicate WindowInv(w: Window) {
    && (w.latest.Some? <==> w.low.Some?)
    && (w.latest.None? ==> w.hashes == map[] && !w.inited)
    && (w.latest.Some? ==>
          && w.low.value == Low(w.latest.value)
          && w.latest.value in w.hashes
          && w.hashes.Keys <= Interval(w.low.value, w.latest.value)
          && (w.inited <==> w.hashes.Keys == Interval(w.low.value, w.latest.value)))
  }

  lemma {:induction false} IntervalSize(lo: nat, hi: nat)
    requires lo <= hi
    ensures |Interval(lo, hi)| == hi - lo + 1
    decreases hi - lo
  {
    if lo == hi {
      assert Interval(lo, hi) == {lo};
    } else {
      IntervalSize(lo, hi - 1);
      assert Interval(lo, hi) == Interval(lo, hi - 1) + {hi};
    }
  }

  /** A subset of the window's heights of full size is all of them. */
  lemma FullByCount(keys: set<nat>, lo: nat, hi: nat)
    requires lo <= hi && keys <= Interval(lo, hi)
    ensures |keys| == hi - lo + 1 <==> keys == Interval(lo, hi)
  {
    IntervalSize(lo, hi);
    if keys != Interval(lo, hi) {
      SmallerIfProper(keys, Interval(lo, hi));
    }
  }

  lemma SmallerIfProper(s: set<nat>, t: set<nat>)
    requires s < t
    ensures |s| < |t|
  {
    var rest := t - s;
    assert t == s + rest && s !! rest && rest != {};
  }

  lemma DeliverKeepsInv(w: Window, h: nat, hs: set<Hash>)
    requires WindowInv(w)
    ensures WindowInv(Deliver(w, h, hs))
    ensures w.inited ==> Deliver(w, h, hs).inited
  {
    var w' := Deliver(w, h, hs);
    var lo, hi := w'.low.value, w'.latest.value;
    if w' != w {
      assert w'.hashes.Keys <= Interval(lo, hi);
      FullByCount(w'.hashes.Keys, lo, hi);
      assert |w'.hashes| == |w'.hashes.Keys|;
      if w.inited {
        assert Interval(lo, hi) <= w.hashes.Keys + {h};
        assert w'.hashes.Keys == Interval(lo, hi);
      }
    }
  }

  lemma WindowBounds(w: Window)
    requires WindowInv(w)
    ensures w.latest.Some? <==> w.low.Some?
    ensures w.latest.Some? ==> w.low.value == Low(w.latest.value) && forall k :: k in w.hashes ==> k >= w.low.value
  {
    if w.latest.Some? {
      assert forall k :: k in w.hashes ==> k in Interval(w.low.value, w.latest.value);
    }
  }

  datatype Delivery = Delivery(height: nat, hashes: set<Hash>)

  /** The window after a list of deliveries. */
  ghost function AfterDeliveries(ds: seq<Delivery>): (w: Window)
    ensures WindowInv(w)
  {
    if ds == [] then EMPTY
    else
      var n := |ds| - 1;
      var w := AfterDeliveries(ds[..n]);
      DeliverKeepsInv(w, ds[n].height, ds[n].hashes);
      Deliver(w, ds[n].height, ds[n].hashes)
  }

  /** The hashes last delivered for a height. */
  function LastFor(ds: seq<Delivery>, k: nat): Option<set<Hash>> {
    if ds == [] then None
    else if ds[|ds| - 1].height == k then Some(ds[|ds| - 1].hashes)
    else LastFor(ds[..|ds| - 1], k)
  }

  /** Whatever is delivered and in whatever order, every height in the window
      holds what was delivered for it last. */
  lemma {:induction false} WindowHoldsLastDelivered(ds: seq<Delivery>, k: nat)
    requires k in AfterDeliveries(ds).hashes
    ensures LastFor(ds, k) == Some(AfterDeliveries(ds).hashes[k])
  {
    if ds != [] {
      var n := |ds| - 1;
      if ds[n].height != k {
        WindowHoldsLastDelivered(ds[..n], k);
      }
    }
  }

  /** Whether the delivery of block `h` is taken: not when blocks before it are missing,
      nor when it is older than the window. */
  predicate Enters(w: Window, h: nat) {
    w.latest.Some? && w.low.Some? ==> w.low.value <= h <= w.latest.value + 1
  }

  /** A delivery that is taken is in the window, which moves on if it is the next block;
      what is still in the window stays, and nothing else comes in. */
  lemma DeliverEffect(w: Window, h: nat, hs: set<Hash>, k: nat)
    requires WindowInv(w)
    ensures
      var w', latest := Deliver(w, h, hs), if w.latest.Some? && h <= w.latest.value then w.latest else Some(h);
      && (!Enters(w, h) ==> w' == w)
      && (Enters(w, h) ==>
            && w'.latest == latest
            && Get(w'.hashes, h) == Some(hs)
            && (k != h ==> Get(w'.hashes, k) == if latest.value < k + 100 then Get(w.hashes, k) else None))
  {
    if w.latest.Some? && k in w.hashes {
      assert k in Interval(w.low.value, w.latest.value);
    }
  }

  /** As soon as every height of the window has been taken, in whatever order, it is ready. */
  lemma FullIsReady(w: Window)
    requires WindowInv(w) && w.latest.Some?
    requires forall k: nat :: k <= w.latest.value < k + 100 ==> k in w.hashes
    ensures w.inited
  {
    assert Interval(w.low.value, w.latest.value) <= w.hashes.Keys;
  }

  /** Until then nothing is accepted, and the reason given is that, or a long nonce. */
  lemma NotReadyRefuses(w: Window, req: Request)
    requires !w.inited
    ensures VerdictFor(w, req) == if req.nonceLength > 128 then InvalidNonce else NotReady
  {
  }

  /** With its hash out of the way, nonce and signature decide. */
  lemma SignatureDecides(w: Window, req: Request)
    requires w.inited && !InWindow(w, req.hash)
    ensures VerdictFor(w, req) ==
            if req.nonceLength > 128 then InvalidNonce
            else if req.recovered.None? || (req.signer.Some? && req.signer.value != req.recovered.value) then BadSig
            else OK
  {
  }

  /** A ready window covers exactly the last BLOCKLIMIT heights, or all of them
      while there are fewer. */
  lemma ReadyCovers(w: Window, k: nat)
    requires WindowInv(w) && w.inited
    ensures k in w.hashes <==> k <= w.latest.value < k + BLOCKLIMIT
  {
    assert k in w.hashes.Keys <==> k in Interval(w.low.value, w.latest.value);
  }

  lemma LatestNeverFalls(w: Window, h: nat, hs: set<Hash>)
    requires WindowInv(w) && w.latest.Some?
    ensures Deliver(w, h, hs).latest.Some? && Deliver(w, h, hs).latest.value >= w.latest.value
  {
  }

  /** Once ready, the window stays ready whatever else is delivered. */
  lemma {:induction false} ReadyForEver(ds: seq<Delivery>, more: seq<Delivery>, k: nat)
    requires AfterDeliveries(ds).inited
    ensures
      var w := AfterDeliveries(ds + more);
      && w.inited
      && w.latest.Some? && w.latest.value >= AfterDeliveries(ds).latest.value
      && (k in w.hashes <==> k <= w.latest.value < k + BLOCKLIMIT)
    decreases |more|
  {
    hide Deliver;
    if more == [] {
      assert ds + more == ds;
    } else {
      var n := |more| - 1;
      assert (ds + more)[..|ds| + n] == ds + more[..n];
      var w := AfterDeliveries(ds + more[..n]);
      ReadyForEver(ds, more[..n], k);
      DeliverKeepsInv(w, more[n].height, more[n].hashes);
      LatestNeverFalls(w, more[n].height, more[n].hashes);
      assert AfterDeliveries(ds + more) == Deliver(w, more[n].height, more[n].hashes);
    }
    ReadyCovers(AfterDeliveries(ds + more), k);
  }

  // ---------------------------------------------------------------------
  // Verdicts
  // ---------------------------------------------------------------------

  predicate InWindow(w: Window, x: Hash) {
    exists k :: k in w.hashes && x in w.hashes[k]
  }

  /** Before the window is ready every hash counts as known. */
  predicate HashExists(w: Window, x: Hash) {
    !w.inited || InWindow(w, x)
  }

  function VerdictFor(w: Window, req: Request): Verdict {
    if req.nonceLength > MAX_NONCE_LENGTH then InvalidNonce
    else if HashExists(w, req.hash) then (if w.inited then Dup else NotReady)
    else if req.recovered.None? || (req.signer.Some? && req.signer != req.recovered) then BadSig
    else OK
  }

  predicate ValidUntil(w: Window, until: nat) {
    w.latest.Some? && w.latest.value < until <= w.latest.value + BLOCKLIMIT
  }

  class Verifier {
    var inited: bool
    var heightLatest: Option<nat>
    var heightLow: Option<nat>
    var hashes: map<nat, set<Hash>>

    function View(): Window
      reads this
    {
      Window(inited, heightLatest, heightLow, hashes)
    }

    ghost predicate Valid()
      reads this
    {
      WindowInv(View())
    }

    constructor ()
      ensures Valid() && View() == EMPTY
    {
      inited := false;
      heightLatest := None;
      heightLow := None;
      hashes := map[];
    }

    /** Takes the hashes of block `h`; returns the heights asked for again. */
    method UpdateHashes(h: nat, hs: set<Hash>) returns (requested: seq<nat>)
      requires Valid()
      modifies this
      ensures Valid() && View() == Deliver(old(View()), h, hs)
      ensures requested ==
              if old(heightLatest).None? then Span(Low(h), h)
              else if h > old(heightLatest).value + 1 then Span(old(heightLatest).value + 1, h + 1)
              else []
    {
      hide WindowInv, Span, Insert;
      ghost var was := View();
      DeliverKeepsInv(was, h, hs);
      WindowBounds(was);
      requested := [];
      if heightLatest.None? && heightLow.None? {
        heightLatest := Some(h);
        heightLow := Some(if h < BLOCKLIMIT then 0 else h - BLOCKLIMIT + 1);
        requested := SendRequests(heightLow.value, h);
      } else {
        var currentHeight, currentLow := heightLatest.value, heightLow.value;
        if h == currentHeight + 1 {
          heightLatest := Some(h);
          heightLow := Some(if h < BLOCKLIMIT then 0 else h - BLOCKLIMIT + 1);
          DropBelow(currentLow, heightLow.value);
          assert hashes == map k | k in was.hashes && k >= Low(h) :: was.hashes[k];
        } else if h > currentHeight + 1 {
          requested := SendRequests(currentHeight + 1, h + 1);
          return;
        }
        if h < heightLow.value {
          return;
        }
      }
      InsertHashes(h, hs);
    }

    method InsertHashes(h: nat, hs: set<Hash>)
      requires heightLatest.Some? && heightLow.Some?
      modifies `hashes, `inited
      ensures View() == Insert(old(View()), h, hs)
    {
      hashes := hashes[h := hs];
      if |hashes| == heightLatest.value - heightLow.value + 1 {
        inited := true;
      }
    }

    /** Removes the heights from `lo` up to but excluding `hi`. */
    method DropBelow(lo: nat, hi: nat)
      requires lo <= hi
      modifies `hashes
      ensures hashes == map k | k in old(hashes) && !(lo <= k < hi) :: old(hashes)[k]
    {
      for i := lo to hi
        invariant hashes == map k | k in old(hashes) && !(lo <= k < i) :: old(hashes)[k]
      {
        hashes := hashes - {i};
      }
    }

    static method SendRequests(lo: nat, hi: nat) returns (requested: seq<nat>)
      requires lo <= hi
      ensures requested == Span(lo, hi)
    {
      requested := [];
      for i := lo to hi
        invariant requested == Span(lo, i)
      {
        requested := requested + [i];
      }
    }

    /** Looks a hash up in every block of the window. */
    method CheckHashExist(x: Hash) returns (found: bool)
      ensures found == HashExists(View(), x)
    {
      if !inited {
        return true;
      }
      var rest := hashes.Keys;
      while rest != {}
        invariant rest <= hashes.Keys
        invariant forall k :: k in hashes.Keys - rest ==> x !in hashes[k]
        decreases rest
      {
        var k :| k in rest;
        if x in hashes[k] {
          return true;
        }
        rest := rest - {k};
      }
      found := false;
    }

    method VerifyTx(req: Request) returns (v: Verdict)
      ensures v == VerdictFor(View(), req)
    {
      if req.nonceLength > MAX_NONCE_LENGTH {
        return InvalidNonce;
      }
      var known := CheckHashExist(req.hash);
      if known {
        return if inited then Dup else NotReady;
      }
      if req.recovered.None? {
        return BadSig;
      }
      if req.signer.Some? && req.signer.value != req.recovered.value {
        return BadSig;
      }
      v := OK;
    }
  }
}
