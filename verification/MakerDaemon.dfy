/**
 * The maker's tick (`advance` in index.ts) as it runs: book and chain reads,
 * durable writes and sends in the source's order. Everybody else moves between
 * any two of them, every write may fail with or without reaching the disk, and
 * a tick may end at any effect. The object keeps the run it has produced, and each
 * effect must be a legal step of that run; `acts` lists what it did and was answered,
 * `faults` counts the acts that can cut a tick short.
 */
module MakerDaemon {
  import opened Common
  import opened Leg
  import opened Chains
  import opened Orders
  import opened MakerPolicy
  import opened MakerRun
  import opened MakerTick
  import Hostage
  import Windows

  /** What other parties' moves from `u` to `w` leave alone. */
  predicate Drift(u: World, w: World) {
    && w.disk == u.disk && w.published == u.published && w.revealed == u.revealed
    && u.now <= w.now && u.acked <= w.acked && (u.settled ==> w.settled)
    && Grows(u.responder, w.responder)
  }

  lemma OthersDrift(e: Setup, w: World, s: Event)
    requires Inv(e, w) && OthersEnabled(e, w, s)
    ensures Drift(w, OthersNext(e, w, s))
  {
    OthersFrame(e, w, s);
  }

  lemma DriftTrans(u: World, v: World, w: World)
    requires Drift(u, v) && Drift(v, w)
    ensures Drift(u, w)
  {
    GrowsTrans(u.responder, v.responder, w.responder);
  }

  class Daemon {
    const e: Setup
    const cfg: Policy
    var w: World
    ghost var ws: seq<World>
    ghost var steps: seq<Event>
    ghost var acts: seq<Act>
    ghost var faults: nat

    ghost predicate Valid()
      reads this
    {
      Run(e, ws, steps) && w == ws[|ws| - 1]
    }

    /** The run has only been extended. */
    twostate predicate Extends()
      reads this
    {
      && old(ws) <= ws && old(steps) <= steps && old(w).now <= w.now
      && old(acts) <= acts && old(faults) <= faults
    }

    twostate predicate Faulted()
      reads this
    {
      faults > old(faults)
    }

    /** Exactly these acts were added. */
    twostate predicate Did(done: seq<Act>)
      reads this
    {
      acts == old(acts) + done
    }

    constructor (e: Setup, cfg: Policy, start: World)
      requires Start(e, start)
      ensures Valid() && this.e == e && this.cfg == cfg && w == start
    {
      this.e, this.cfg, w := e, cfg, start;
      ws, steps, acts, faults := [start], [], [], 0;
    }

    ghost method Note(a: Act)
      requires Valid()
      modifies this`acts, this`faults
      ensures Valid() && Did([a]) && faults == old(faults) + (if Fault(e, a) then 1 else 0)
    {
      acts := acts + [a];
      faults := faults + (if Fault(e, a) then 1 else 0);
    }

    /** Perform one event. */
    method Do(s: Event)
      requires Valid() && Enabled(e, w, s)
      modifies this`w, this`ws, this`steps
      ensures Valid() && w == Next(e, old(w), s) && Extends()
      ensures ws == old(ws) + [w] && steps == old(steps) + [s]
    {
      ghost var us, es := Extend(e, ws, steps, s);
      w := Next(e, w, s);
      ws, steps := us, es;
    }

    lemma Holds()
      requires Valid()
      ensures Inv(e, w)
    {
      RunKeeps(e, ws, steps, |ws| - 1);
    }

    /** Any number of moves by anybody else. */
    method Others()
      requires Valid()
      modifies this`w, this`ws, this`steps
      ensures Valid() && Extends() && Drift(old(w), w)
    {
      Holds();
      var rounds: int := *;
      if rounds < 0 { rounds := 0; }
      for n := 0 to rounds
        invariant Valid() && Inv(e, w)
        invariant old(ws) <= ws && old(steps) <= steps && Drift(old(w), w)
      {
        var s: Event := *;
        if OthersEnabled(e, w, s) {
          OthersDrift(e, w, s);
          Do(s);
          Holds();
        }
      }
    }

    /** A durable write that may fail, before or after the file changed. */
    method Write(s: Event) returns (ok: bool)
      requires Valid() && Enabled(e, w, s)
      modifies this
      ensures Valid() && Extends() && Did([Stored(s, ok)]) && (!ok ==> Faulted())
      ensures ok ==> w == Next(e, old(w), s)
      ensures !ok ==> w == old(w) || w == Next(e, old(w), s)
    {
      ok := *;
      var landed: bool := *;
      if ok || landed { Do(s); }
      Note(Stored(s, ok));
    }

    // ---- reads ----

    /** What the book answers. */
    method Answer(m: Managed) returns (r: Reply)
      requires Valid() && w.disk == Some(m)
      modifies this`w, this`ws, this`steps
      ensures Valid() && Extends() && Drift(old(w), w)
      ensures r.LockingView? ==> m.Filled() && m.protocol.value.fillProof.value in w.acked
      ensures r.CancelledView? ==> m.Cancelled()
    {
      Others();
      r := *;
      if r.LockingView? && !(m.Filled() && m.protocol.value.fillProof.value in w.acked) { r := Failed; }
      if r.CancelledView? && !m.Cancelled() { r := Failed; }
    }

    method FetchBook(m: Managed) returns (r: Reply)
      requires Valid() && w.disk == Some(m)
      modifies this
      ensures Valid() && Extends() && Drift(old(w), w)
      ensures Did([Asked(r)]) && (r == Failed || r == Unavailable ==> Faulted())
      ensures r.LockingView? ==> m.Filled() && m.protocol.value.fillProof.value in w.acked
      ensures r.CancelledView? ==> m.Cancelled()
    {
      r := Answer(m);
      Note(Asked(r));
    }

    /** The initiator leg at head. */
    method ReadInitiator(m: Managed) returns (i: Option<LegState>)
      requires Valid()
      modifies this`w, this`ws, this`steps
      ensures Valid() && Extends() && Drift(old(w), w)
      ensures UnderH(e, m) && i.Some? ==> w.initiator.Ok() && i.value == w.initiator.Head()
      ensures UnderH(e, m) && i.Some? && Terminal(i.value) ==> w.settled
    {
      Others();
      Holds();
      i := *;
      if UnderH(e, m) && i.Some? { i := Some(w.initiator.Head()); }
    }

    /** The responder leg at head. */
    method ReadResponder(m: Managed) returns (r: Option<LegState>)
      requires Valid()
      modifies this`w, this`ws, this`steps
      ensures Valid() && Extends() && Drift(old(w), w)
      ensures UnderH(e, m) && r.Some? ==> w.responder.Ok() && r.value == w.responder.Head()
    {
      Others();
      r := *;
      if UnderH(e, m) && r.Some? { r := Some(w.responder.Head()); }
    }

    /** The responder leg at confirmation depth, `k` records into its history. */
    method ReadConfirmed(m: Managed) returns (r: Option<LegState>, k: nat)
      requires Valid()
      modifies this`w, this`ws, this`steps
      ensures Valid() && Extends() && Drift(old(w), w)
      ensures UnderH(e, m) && r.Some? ==> k <= w.responder.final < |w.responder.hist| && w.responder.hist[k] == r.value
    {
      Others();
      r, k := *, 0;
      var at: int := *;
      if UnderH(e, m) && r.Some? {
        k := if 0 <= at <= w.responder.final then at else w.responder.final;
        r := Some(w.responder.hist[k]);
      }
    }

    /** Three reads at three moments, of which nothing survives an unset hashlock. */
    method ReadLegs(m: Managed) returns (r: Reads, k: nat)
      requires Valid()
      modifies this`w, this`ws, this`steps
      ensures Valid() && Extends() && Drift(old(w), w)
      ensures m.hashlock.None? ==> r == Reads(None, None, None)
      ensures UnderH(e, m) && r.iState.Some? && Terminal(r.iState.value) ==> w.settled
      ensures UnderH(e, m) && r.rConfirmed.Some? ==>
                k <= w.responder.final < |w.responder.hist| && w.responder.hist[k] == r.rConfirmed.value
    {
      Holds();
      ghost var before := w;
      var i := ReadInitiator(m);
      ghost var seen := w;
      var s := ReadResponder(m);
      DriftTrans(before, seen, w);
      ghost var mid := w;
      var t;
      t, k := ReadConfirmed(m);
      DriftTrans(before, mid, w);
      DriftTrans(seen, mid, w);
      r := if m.hashlock.None? then Reads(None, None, None) else Reads(i, s, t);
    }

    // ---- durable steps shared by several branches ----

    method RetireRecord() returns (o: Outcome)
      requires Valid() && Enabled(e, w, Retire)
      modifies this
      ensures Valid() && Extends() && Did([Stored(Retire, o == Retired)])
      ensures (o == Interrupted && Faulted()) || (o == Retired && w.disk.None?)
    {
      var ok := Write(Retire);
      o := if ok then Retired else Interrupted;
    }

    /** Store an authenticated locking view: acknowledgment and, if seen, release. */
    method PersistObservation(m: Managed, r: Reply) returns (n: Managed, ok: bool)
      requires Valid() && w.disk == Some(m) && r.LockingView?
      requires m.Filled() && m.protocol.value.fillProof.value in w.acked
      modifies this
      ensures Valid() && Extends() && (!ok ==> Faulted())
      ensures n == Observed(m, r.released)
      ensures ok ==> w == old(w).(disk := Some(n))
      ensures n == m ==> ok && acts == old(acts)
      ensures n != m ==> Did([Stored(Observe(r.released), ok)])
    {
      n, ok := Observed(m, r.released), true;
      if n != m { ok := Write(Observe(r.released)); }
    }

    /** Send the stored fill, which may or may not arrive, and take the book's answer. */
    method PostFill(m: Managed) returns (r: Reply)
      requires Valid() && w.disk == Some(m) && m.Filled()
      modifies this
      ensures Valid() && Extends() && Did([Posted(r)]) && (!r.LockingView? ==> Faulted())
      ensures Drift(old(w).(published := w.published), w)
      ensures r.LockingView? ==> m.protocol.value.fillProof.value in w.acked
    {
      var left: bool := *;
      if left { Do(PublishFill); }
      r := Answer(m);
      Note(Posted(r));
    }

    /** Publish the stored fill; a locking answer is recorded like any other. */
    method PublishStoredFill(m: Managed) returns (done: bool, unavailable: bool)
      requires Valid() && w.disk == Some(m) && m.Filled()
      modifies this
      ensures Valid() && Extends() && (!done ==> Faulted())
      ensures done ==> w.disk.Some? && w.disk.value == Observed(m, w.disk.value.Released())
      ensures done ==> FillArtifact(m.protocol.value.fillProof.value) in w.published
      ensures unavailable ==> !done && Drift(old(w).(published := w.published), w)
      ensures |acts| > |old(acts)| && acts[|old(acts)|].Posted?
      ensures unavailable <==> acts[|old(acts)|].reply == Unavailable
    {
      done, unavailable := false, false;
      var r := PostFill(m);
      Holds();
      if r.LockingView? {
        var n;
        n, done := PersistObservation(m, r);
      } else {
        unavailable := r == Unavailable;
      }
    }

    /** The operator's cancellation of this very order, valid as long as the order. */
    ghost predicate WithdrawsOrder(p: Protocol, at: int, c: Cancel) {
      c == Cancel(p.orderDigest, 1, at, p.orderExpiresAt, c.nonce)
    }

    /** Sign a cancellation and store it; `ok` only once it is durable. */
    method StoreCancel(m: Managed) returns (ok: bool)
      requires Valid() && w.disk == Some(m) && Undecided(m)
      modifies this
      ensures Valid() && Extends() && (!ok ==> Faulted())
      ensures ok ==>
                && w.disk.Some? && w.disk.value.Cancelled()
                && var c := w.disk.value.protocol.value.cancelProof.value;
                && w.disk.value == m.(protocol := Some(m.protocol.value.(cancelProof := Some(c))))
                && WithdrawsOrder(m.protocol.value, old(w.now), c)
    {
      var p := m.protocol.value;
      var nonce: nat := *;
      ok := Write(SignCancel(Cancel(p.orderDigest, 1, w.now, p.orderExpiresAt, nonce)));
    }

    /** Send the stored cancellation, which may or may not arrive. */
    method SendCancel() returns (r: Reply)
      requires Valid() && w.disk.Some? && w.disk.value.Cancelled()
      modifies this
      ensures Valid() && Extends() && w.disk == old(w.disk)
      ensures r == CancelledView || r == Gone || r == Failed
      ensures Did([Withdrew(r)]) && (r != CancelledView ==> Faulted())
    {
      var left: bool := *;
      if left { Do(PublishCancel); }
      Others();
      r := *;
      if r != Gone && r != CancelledView { r := Failed; }
      Note(Withdrew(r));
    }

    /** Sign a cancellation once, then publish what is stored. */
    method CancelManaged(m: Managed) returns (r: Reply)
      requires Valid() && w.disk == Some(m)
      modifies this
      ensures Valid() && Extends()
      ensures r == CancelledView || r == Gone || r == Failed
      ensures m.Filled() ==> r == Failed && w == old(w)
      ensures !m.Filled() && r != CancelledView ==> Faulted()
      ensures m.Cancelled() ==> w.disk == Some(m)
      ensures r != Failed ==> w.disk.Some? && w.disk.value.Cancelled() && !w.disk.value.Filled()
      ensures r != Failed ==> |acts| > |old(acts)| && acts[|acts| - 1] == Withdrew(r)
    {
      Holds();
      if m.Filled() { return Failed; }
      if !m.Cancelled() {
        var ok := StoreCancel(m);
        if !ok { return Failed; }
      }
      r := SendCancel();
    }

    /** The listing was withdrawn, with the book's word for it, before the record went. */
    ghost predicate WithdrawnFirst()
      reads this
    {
      && |acts| >= 2 && acts[|acts| - 1] == Stored(Retire, true)
      && (acts[|acts| - 2] == Withdrew(CancelledView) || acts[|acts| - 2] == Withdrew(Gone))
    }

    /** Cancel, then drop the record; a failed cancellation keeps it. */
    method CancelAndRetire(m: Managed) returns (o: Outcome)
      requires Valid() && w.disk == Some(m)
      modifies this
      ensures Valid() && Extends()
      ensures o == Interrupted || o == Idle || (o == Retired && w.disk.None? && WithdrawnFirst())
      ensures !m.Filled() && o != Retired ==> Faulted()
    {
      var r := CancelManaged(m);
      if r == Failed { return Idle; }
      o := RetireRecord();
    }

    // ---- the branches of a tick ----

    /** A stored cancellation outlives every market condition. */
    method ResumeCancel(m: Managed, r: Reply) returns (o: Outcome)
      requires Valid() && w.disk == Some(m) && m.Cancelled() && !m.Filled()
      modifies this
      ensures Valid() && Extends()
      ensures o == Interrupted || o == Idle || (o == Retired && w.disk.None?)
      ensures r == Gone ==> o == Idle && w == old(w)
      ensures r == CancelledView ==> Did([Stored(Retire, o == Retired)]) && (o == Retired || Faulted())
      ensures r == OpenView ==>
                || (o == Retired && Did([Withdrew(CancelledView), Stored(Retire, true)]))
                || (o == Interrupted && Faulted())
      ensures r.LockingView? || r == Unavailable || r == Failed ==> o == Interrupted && w == old(w)
    {
      match StatusOf(r) {
        case BookCancelled => o := RetireRecord();
        case BookGone => o := Idle;
        case BookOpen =>
          var answer := SendCancel();
          if answer != CancelledView { return Interrupted; }
          o := RetireRecord();
        case _ => o := Interrupted;
      }
    }

    /** The stored selection has not expired. */
    predicate LiveSelection(m: Managed, now: int) {
      && m.protocol.Some? && m.protocol.value.selectedIntent.Some?
      && now < m.protocol.value.selectedIntent.value.expiresAt
    }

    /** Drop an expired selection together with its secret. */
    method ForgetExpired(m: Managed) returns (n: Managed, ok: bool)
      requires Valid() && w.disk == Some(m) && Undecided(m)
      modifies this
      ensures Valid() && Extends() && (!ok ==> Faulted())
      ensures LiveSelection(m, old(w.now)) ==> ok && n == m
      ensures ok ==> w == old(w).(disk := Some(n)) && Undecided(n)
      ensures ok && !LiveSelection(m, old(w.now)) ==>
                n == (if m.protocol.value.selectedIntent.Some? then Forgotten(m) else m)
    {
      n, ok := m, true;
      var chosen := m.protocol.value.selectedIntent;
      if chosen.Some? && chosen.value.expiresAt <= w.now {
        ok := Write(ForgetSelection);
        n := Forgotten(m);
      }
    }

    /** Store the chosen intent with a secret that never repeats. */
    method StoreSelection(m: Managed, i: Intent) returns (n: Managed, ok: bool)
      requires Valid() && w.disk == Some(m) && Undecided(m)
      modifies this
      ensures Valid() && Extends() && (!ok ==> Faulted())
      ensures ok ==> w == old(w).(disk := Some(n)) && n.preimage.Some?
                     && n == Selected(e, m, n.preimage.value, i, old(w.now))
      ensures ok ==> |acts| == |old(acts)| + 2
    {
      n, ok := m, false;
      var secret: nat := *;
      var unused := e.H(secret) == e.h ==> Unused(e, w);
      Note(Drew(unused));
      if !unused { return; }
      var at := w.now;
      ok := Write(Select(secret, i, at));
      n := Selected(e, m, secret, i, at);
    }

    /** Choose the earliest valid intent among those the book offers, if any. */
    method SelectFresh(m: Managed) returns (n: Managed, chosen: Option<Intent>, ok: bool)
      requires Valid() && w.disk == Some(m) && Undecided(m) && m.protocol.value.selectedIntent.None?
      modifies this
      ensures Valid() && Extends() && (!ok ==> Faulted())
      ensures ok ==> w.disk == Some(n) && Undecided(n)
      ensures ok ==> n.protocol.value == m.protocol.value.(selectedIntent := chosen)
      ensures ok && chosen.None? ==>
                && |acts| > |old(acts)| && acts[|acts| - 1].Offered?
                && var b := acts[|acts| - 1];
                && Chosen(m.protocol.value, b.candidates, b.verified, b.at) == None
      ensures ok && chosen.Some? ==>
                && |acts| >= |old(acts)| + 3 && acts[|acts| - 3].Offered?
                && var b := acts[|acts| - 3];
                && Chosen(m.protocol.value, b.candidates, b.verified, b.at) == chosen
                && CarriesIntent(n, chosen.value) && n.announcedAt.Some? && b.at <= n.announcedAt.value
    {
      Others();
      var candidates: seq<Intent>, verified: set<Intent> := *, *;
      var at := w.now;
      Note(Offered(candidates, verified, at));
      chosen := Chosen(m.protocol.value, candidates, verified, at);
      n, ok := m, true;
      if chosen.Some? {
        Others();
        n, ok := StoreSelection(m, chosen.value);
      }
    }

    /** The stored selection while it lives, else a new one. */
    method SelectIntent(m: Managed) returns (n: Managed, chosen: Option<Intent>, ok: bool)
      requires Valid() && w.disk == Some(m) && Undecided(m)
      modifies this
      ensures Valid() && Extends() && (!ok ==> Faulted())
      ensures ok ==> w.disk == Some(n) && Undecided(n) && n.protocol.value.selectedIntent == chosen
      ensures ok ==> n.protocol.value == m.protocol.value.(selectedIntent := chosen)
      ensures LiveSelection(m, old(w.now)) ==> ok && n == m
      ensures ok && chosen.None? ==>
                && |acts| > |old(acts)| && acts[|acts| - 1].Offered?
                && var b := acts[|acts| - 1];
                && Chosen(m.protocol.value, b.candidates, b.verified, b.at) == None
      ensures ok && chosen.Some? && !LiveSelection(m, old(w.now)) ==>
                && |acts| >= |old(acts)| + 3 && acts[|acts| - 3].Offered?
                && var b := acts[|acts| - 3];
                && Chosen(m.protocol.value, b.candidates, b.verified, b.at) == chosen
                && CarriesIntent(n, chosen.value) && n.announcedAt.Some? && b.at <= n.announcedAt.value
    {
      chosen := None;
      n, ok := ForgetExpired(m);
      if !ok { return; }
      chosen := n.protocol.value.selectedIntent;
      if chosen.Some? { return; }
      n, chosen, ok := SelectFresh(n);
    }

    /** The signed fill reaches disk before any network send. */
    method StoreAndPublish(m: Managed, f: Fill) returns (o: Outcome)
      requires Valid() && w.disk == Some(m) && Undecided(m) && Binds(m, f)
      modifies this
      ensures Valid() && Extends()
      ensures o == Published || (o == Interrupted && Faulted())
      ensures o == Published ==>
                && EndsAs(Published)
                && w.disk.value == Observed(m.(protocol := Some(m.protocol.value.(fillProof := Some(f)))),
                                            w.disk.value.Released())
    {
      var ok := Write(SignFill(f));
      if !ok { return Interrupted; }
      var done, unavailable := PublishStoredFill(w.disk.value);
      Holds();
      o := if done then Published else Interrupted;
    }

    /** What a published fill of this record is: signed for the stored selection under the
        window rules, its response window the longest that configuration and order allow. */
    predicate FillIsLawful(m: Managed) {
      && m.Filled() && m.protocol.value.selectedIntent.Some? && m.hashlock.Some?
      && var p, i, f := m.protocol.value, m.protocol.value.selectedIntent.value, m.protocol.value.fillProof.value;
      && Windows.SignerAccepts(p, i, f)
      && f.respondBy == Min(f.issuedAt + Windows.ResponseWindow(WindowsOf(e)), p.orderExpiresAt)
    }

    /** The order is too near its own expiry: withdraw it. */
    method WithdrawLate(m: Managed) returns (o: Outcome)
      requires Valid() && w.disk == Some(m) && !m.Filled()
      modifies this
      ensures Valid() && Extends()
      ensures (o == Retired && w.disk.None? && WithdrawnFirst()) || (o == Interrupted && Faulted())
    {
      var r := CancelManaged(m);
      if r != CancelledView { return Interrupted; }
      o := RetireRecord();
    }

    /** Sign the fill for the stored selection, store it, then publish it. */
    method SignAndPublish(m: Managed) returns (o: Outcome)
      requires Valid() && w.disk == Some(m) && Undecided(m) && m.protocol.value.selectedIntent.Some?
      modifies this
      ensures Valid() && Extends()
      ensures EndsAs(o) && !o.Sent?
      ensures o == Interrupted ==> Faulted() || e.responderWindowS < 661
      ensures o == Idle <==> m.protocol.value.selectedIntent.value.expiresAt <= old(w.now)
      ensures o == Idle ==> w == old(w)
      ensures o == Retired ==> m.protocol.value.orderExpiresAt < old(w.now) + 60 && WithdrawnFirst()
      ensures o == Published ==>
                && FillIsLawful(w.disk.value)
                && old(w.now) + 60 <= m.protocol.value.orderExpiresAt
                && w.disk.value.protocol.value.selectedIntent == m.protocol.value.selectedIntent
                && w.disk.value.protocol.value.fillProof.value.issuedAt == old(w.now)
    {
      Holds();
      var p, i, issuedAt := m.protocol.value, m.protocol.value.selectedIntent.value, w.now;
      if issuedAt >= i.expiresAt { return Idle; }
      var responseWindow := Min(Windows.FILL_RESPONSE_TARGET_S, e.responderWindowS - 601);
      if responseWindow < 60 { return Interrupted; }
      var respondBy := Min(issuedAt + responseWindow, p.orderExpiresAt);
      if respondBy - issuedAt < 60 {
        o := WithdrawLate(m);
        return;
      }
      var nonce: nat := *;
      var f := Fill(p.orderDigest, i.digest, i.takerEthAccount, i.takerQrlAccount, i.releaseCommitment,
                    m.hashlock.value, m.initiatorTimeout.value, m.responderTimeout.value, issuedAt, respondBy, nonce);
      var ok := Windows.SignerAccepts(p, i, f);
      Note(Signed(f, ok));
      if !ok { return Interrupted; }
      o := StoreAndPublish(m, f);
    }

    /** Select a proposal, then sign, store and publish the fill for it. */
    method SelectAndFill(m: Managed) returns (o: Outcome)
      requires Valid() && w.disk == Some(m) && Undecided(m)
      modifies this
      ensures Valid() && Extends()
      ensures EndsAs(o) && !o.Sent?
      ensures o == Interrupted ==> Faulted() || e.responderWindowS < 661
      ensures o == Idle ==> w.disk.Some? && !LiveSelection(w.disk.value, w.now)
      ensures o == Retired ==> m.protocol.value.orderExpiresAt < w.now + 60 && WithdrawnFirst()
      ensures o == Published ==> FillIsLawful(w.disk.value)
      ensures o == Published && LiveSelection(m, old(w.now)) ==>
                w.disk.value.protocol.value.selectedIntent == m.protocol.value.selectedIntent
    {
      var n, chosen, ok := SelectIntent(m);
      if !ok { return Interrupted; }
      if chosen.None? { return Idle; }
      Others();
      o := SignAndPublish(n);
    }

    // ---- acting on a decision ----

    method StoreMarkers(m: Managed, n: Managed) returns (ok: bool)
      requires Valid() && w.disk == Some(m) && OnlyMarkers(m, n)
      modifies this
      ensures Valid() && Extends() && Did([Stored(MarkAttempt(n), ok)]) && (!ok ==> Faulted())
      ensures ok ==> w == old(w).(disk := Some(n))
    {
      ok := Write(MarkAttempt(n));
    }

    /** The fresh look says stop: the response window is over, a release was seen, or a
        first lock would rest on an answer that does not lock. */
    predicate WalksAway(n: Managed, latest: Reply, now: int) {
      || (n.Filled() && now >= n.protocol.value.fillProof.value.respondBy)
      || (n.protocol.Some? && n.protocol.value.releaseObserved)
      || (latest.LockingView? && latest.released)
      || (n.lockSentAt.None? && (latest == OpenView || latest == CancelledView || latest == Gone))
    }

    /** The walk-away check right before funding: the record to fund from, if any. */
    method ConfirmFunding(m: Managed, iState: Option<LegState>) returns (o: Outcome, n: Managed)
      requires Valid() && w.disk == Some(m) && MayFund(m)
      modifies this
      ensures Valid() && Extends()
      ensures |acts| > |old(acts)| && acts[|old(acts)|].Asked?
      ensures o == Interrupted || o == Idle || o == Sent(LockLeg)
      ensures o == Interrupted ==> Faulted() && StoppedByFault()
      ensures var latest := acts[|old(acts)|].reply;
        && (o == Idle ==> w.disk == Some(n) && WalksAway(n, latest, w.now))
        && (o.Sent? ==> w.disk == Some(n) && MayFund(n) && !WalksAway(n, latest, w.now))
        && (latest == Failed ==> o == Interrupted) && (latest == Unavailable ==> o != Interrupted && w.disk == Some(m))
        && (o != Interrupted ==> n == if latest.LockingView? then Observed(m, latest.released) else m)
    {
      n := m;
      var latest := FetchBook(m);
      if latest == Failed || (latest == Unavailable && !CanContinueWithoutBook(m, iState)) { return Interrupted, n; }
      if latest.LockingView? {
        var ok;
        n, ok := PersistObservation(m, latest);
        if !ok { return Interrupted, n; }
      }
      if ResponseExpired(n, w.now) || n.Released() || (latest.LockingView? && latest.released)
         || (n.lockSentAt.None? && latest != Unavailable && !latest.LockingView?) {
        return Idle, n;
      }
      o := Sent(LockLeg);
    }

    /** The approvals and the lock, any of which may fail. */
    method SubmitLock(m: Managed) returns (o: Outcome)
      requires Valid() && w.disk == Some(m) && MayFund(m) && m.lockSentAt.Some?
      modifies this
      ensures Valid() && Extends() && (o.Sent? ==> Did([Submitted(Went)]))
      ensures || (o == Interrupted && Faulted() && StoppedByFault())
              || (o == Sent(LockLeg) && |steps| > 0 && steps[|steps| - 1] == SendLock)
      ensures o.Sent? ==> w.disk == Some(m)
    {
      Others();
      var result: Sending := *;
      Note(Submitted(result));
      if result != Went { return Interrupted; }
      Do(SendLock);
      o := Sent(LockLeg);
    }

    method StoreLockMarker(m: Managed, at: int) returns (ok: bool)
      requires Valid() && w.disk == Some(m) && MayFund(m)
      modifies this
      ensures Valid() && Extends() && Did([Stored(MarkLock(at), ok)]) && (!ok ==> Faulted())
      ensures ok ==> w == old(w).(disk := Some(m.(lockSentAt := Some(at))))
    {
      ok := Write(MarkLock(at));
    }

    /** The act just made failed, and was not a mere outage of the book. */
    ghost predicate StoppedByFault()
      reads this
    {
      |acts| > 0 && Fault(e, acts[|acts| - 1]) && acts[|acts| - 1] != Asked(Unavailable)
    }

    /** The marker reaches disk before the transaction. */
    method MarkAndLock(m: Managed) returns (o: Outcome)
      requires Valid() && w.disk == Some(m) && MayFund(m)
      modifies this
      ensures Valid() && Extends()
      ensures || (o == Interrupted && Faulted() && StoppedByFault())
              || (o == Sent(LockLeg) && |steps| > 0 && steps[|steps| - 1] == SendLock)
      ensures o.Sent? ==>
                && w.disk.Some? && w.disk.value.lockSentAt.Some?
                && w.disk.value == m.(lockSentAt := w.disk.value.lockSentAt)
                && Did([Stored(MarkLock(w.disk.value.lockSentAt.value), true), Submitted(Went)])
                && old(w.now) <= w.disk.value.lockSentAt.value <= w.now
    {
      Others();
      var at := w.now;
      var ok := StoreLockMarker(m, at);
      if !ok { return Interrupted; }
      o := SubmitLock(m.(lockSentAt := Some(at)));
    }

    /** The lock was withheld by the fresh look, which was the act at `base`. */
    ghost predicate Withheld(base: nat)
      reads this
    {
      && base < |acts| && acts[base].Asked?
      && w.disk.Some? && WalksAway(w.disk.value, acts[base].reply, w.now)
    }

    /** The lock followed a fresh look, the act at `base`, that did not say stop, and a
        durable marker. */
    ghost predicate LockedAfterLook(base: nat)
      reads this
    {
      && base + 2 < |acts| && acts[base].Asked? && acts[base].reply != Failed
      && w.disk.Some? && w.disk.value.lockSentAt.Some? && !w.disk.value.Released()
      && acts[|acts| - 2] == Stored(MarkLock(w.disk.value.lockSentAt.value), true)
      && acts[|acts| - 1] == Submitted(Went)
    }

    /** A record that may fund names its taker, its hashlock and its timeout. */
    lemma FundsInFull(m: Managed)
      requires Valid() && w.disk == Some(m) && MayFund(m)
      ensures m.TakerOnInitiatorLeg().Some? && m.hashlock.Some? && m.initiatorTimeout.Some?
    {
      Holds();
    }

    /** Escrow the initiator leg: the marker reaches disk before the transaction. */
    method LockInitiator(m: Managed, iState: Option<LegState>, blockedByBook: bool) returns (o: Outcome)
      requires Valid() && w.disk == Some(m) && MayFund(m)
      modifies this
      ensures Valid() && Extends()
      ensures o == Interrupted || o == Idle || (o == Sent(LockLeg) && |steps| > 0 && steps[|steps| - 1] == SendLock)
      ensures o == Interrupted ==> Faulted() && StoppedByFault()
      ensures o == Idle ==> blockedByBook || Withheld(|old(acts)|)
      ensures blockedByBook ==> o == Idle && w == old(w)
      ensures o.Sent? ==> LockedAfterLook(|old(acts)|)
      ensures o.Sent? && m.lockSentAt.None? ==>
                acts[|old(acts)|].reply == Unavailable || acts[|old(acts)|].reply == LockingView(false)
    {
      FundsInFull(m);
      if blockedByBook { return Idle; }
      if m.TakerOnInitiatorLeg().None? || m.hashlock.None? || m.initiatorTimeout.None? { return Idle; }
      var n;
      o, n := ConfirmFunding(m, iState);
      if o.Sent? { o := MarkAndLock(n); }
    }

    /** Simulating or estimating a claim of the responder escrow runs it against some
        head of the chain: it can fail for any reason, but goes through only on an
        escrow that is open before its own timeout. */
    method TryClaim(m: Managed, k: nat) returns (ok: bool, on: LegState, at: int)
      requires Valid()
      requires UnderH(e, m) ==> k <= w.responder.final < |w.responder.hist|
      modifies this
      ensures Valid() && Extends() && Drift(old(w), w)
      ensures Did([Tried(ok)]) && (!ok ==> Faulted())
      ensures at == w.now
      ensures ok && UnderH(e, m) ==> Later(w.responder.hist[k], on, at, w.revealed) && Claimable(on, at)
    {
      Others();
      Holds();
      on, at := *, w.now;
      if UnderH(e, m) {
        on := w.responder.Head();
        Views(w.responder, k, w.now, w.revealed);
      }
      var answered: bool := *;
      ok := answered && Claimable(on, at);
      Note(Tried(ok));
    }

    /** The cutoff's own read of the escrow, and the clock it is compared with. */
    method ReadAgain(m: Managed, k: nat) returns (ok: bool, seen: LegState, checkedAt: int)
      requires Valid()
      requires UnderH(e, m) ==> k <= w.responder.final < |w.responder.hist|
      modifies this
      ensures Valid() && Extends() && Drift(old(w), w)
      ensures checkedAt == w.now && Did([Reread(ok, seen, checkedAt)])
      ensures Fault(e, Reread(ok, seen, checkedAt)) ==> Faulted()
      ensures UnderH(e, m) ==> Later(w.responder.hist[k], seen, checkedAt, w.revealed)
    {
      ghost var before := w;
      Others();
      Holds();
      ghost var mid := w;
      seen, ok := *, *;
      if UnderH(e, m) {
        seen := w.responder.Head();
        Views(w.responder, k, w.now, w.revealed);
      }
      Others();
      DriftTrans(before, mid, w);
      checkedAt := w.now;
      Note(Reread(ok, seen, checkedAt));
    }

    /** `submitPreflightedClaim` up to its callback: simulate, re-read the escrow, and
        give up inside the margin, which is only looked at on an open escrow. */
    method Preflight(m: Managed, k: nat) returns (go: bool, seen: LegState, checkedAt: int)
      requires Valid()
      requires UnderH(e, m) ==> k <= w.responder.final < |w.responder.hist|
      modifies this
      ensures Valid() && Extends() && Drift(old(w), w)
      ensures checkedAt == w.now
      ensures go ==> Did([Tried(true), Reread(true, seen, checkedAt)])
      ensures !go ==> Faulted()
      ensures go && UnderH(e, m) ==> Later(w.responder.hist[k], seen, checkedAt, w.revealed)
      ensures go && seen.status == Open ==> checkedAt < seen.timeout - e.claimSafetyS
      ensures go && UnderH(e, m) && w.responder.hist[k].status == Open && w.responder.hist[k].recipient != 0 ==>
                old(w.now) < w.responder.hist[k].timeout
    {
      ghost var before := w;
      var simulated, on, at := TryClaim(m, k);
      if !simulated { return false, on, at; }
      ghost var mid := w;
      go, seen, checkedAt := ReadAgain(m, k);
      DriftTrans(before, mid, w);
      if seen.status == Open && checkedAt >= seen.timeout - e.claimSafetyS { go := false; }
    }

    /** Simulation, re-read outside the margin, durable marker and estimate, all passed
        and in this order. */
    ghost predicate ClaimedAfterChecks(m: Managed, base: nat)
      reads this
    {
      && |acts| == base + 4 && w.disk.Some? && w.disk.value == m.(claimSentAt := w.disk.value.claimSentAt)
      && acts[base] == Tried(true)
      && acts[base + 1].Reread? && !Fault(e, acts[base + 1])
      && acts[base + 2] == Stored(MarkAttempt(w.disk.value), true)
      && w.disk.value.claimSentAt == Some(acts[base + 1].at)
      && acts[base + 3] == Tried(true)
    }

    /** Claim the taker's escrow, which reveals the secret: preflight, marker, the
        sender's own estimate of the claim, and only then the broadcast. */
    method ClaimResponder(m: Managed, r: LegState, k: nat, decidedAt: int) returns (o: Outcome)
      requires Valid() && w.disk == Some(m)
      requires r.status == Open && PaysMaker(e, r) && decidedAt < r.timeout - e.claimSafetyS && decidedAt <= w.now
      requires UnderH(e, m) ==> k <= w.responder.final < |w.responder.hist| && w.responder.hist[k] == r
      modifies this
      ensures Valid() && Extends()
      ensures o == Interrupted || o == Idle || (o == Sent(ClaimLeg) && |steps| > 0 && steps[|steps| - 1].SendClaim?)
      ensures o == Idle <==> m.hashlock.None? || m.preimage.None?
      ensures o == Interrupted ==> Faulted()
      ensures o.Sent? ==> ClaimedAfterChecks(m, |old(acts)|)
    {
      if m.hashlock.None? || m.preimage.None? { return Idle; }
      var go, seen, checkedAt := Preflight(m, k);
      if !go { return Interrupted; }
      var n := m.(claimSentAt := Some(w.now));
      var ok := StoreMarkers(m, n);
      if !ok { return Interrupted; }
      ok := EstimateAndClaim(n, r, k, decidedAt, seen, checkedAt);
      o := if ok then Sent(ClaimLeg) else Interrupted;
    }

    /** `send` with the settlement gas rule: estimate the claim, then broadcast it. */
    method EstimateAndClaim(m: Managed, r: LegState, k: nat, decidedAt: int, seen: LegState, checkedAt: int)
      returns (ok: bool)
      requires Valid() && w.disk == Some(m) && decidedAt <= checkedAt <= w.now
      requires r.status == Open && PaysMaker(e, r) && decidedAt < r.timeout - e.claimSafetyS
      requires seen.status == Open ==> checkedAt < seen.timeout - e.claimSafetyS
      requires UnderH(e, m) ==> k <= w.responder.final < |w.responder.hist| && w.responder.hist[k] == r
                                && Later(r, seen, checkedAt, w.revealed)
      modifies this
      ensures Valid() && Extends() && Did([Tried(ok)]) && (!ok ==> Faulted())
      ensures ok ==> |steps| > 0 && steps[|steps| - 1].SendClaim? && w.disk == Some(m)
    {
      var estimated, estimatedAt;
      ok, estimated, estimatedAt := TryClaim(m, k);
      if !ok { return; }
      Others();
      var check := Check(seen, checkedAt, estimated, estimatedAt);
      assert UnderH(e, m) ==> MaySendClaim(e, w, k, decidedAt, check);
      Do(SendClaim(k, decidedAt, check));
    }

    /** Claim our own lock for the taker once the secret is public at depth; its simulation,
        cutoff and send are one submission, whose failure is only logged. */
    method SponsorTaker(m: Managed, k: nat) returns (o: Outcome)
      requires Valid() && w.disk == Some(m)
      requires UnderH(e, m) ==> k <= w.responder.final < |w.responder.hist| && w.responder.hist[k].status == Claimed
      modifies this
      ensures Valid() && Extends()
      ensures o == Interrupted || o == Idle || (o == Sent(Sponsor) && |steps| > 0 && steps[|steps| - 1].SendSponsor?)
      ensures !o.Sent? ==> m.hashlock.None? || m.preimage.None? || Faulted()
      ensures o.Sent? ==> w.disk == Some(m.(sponsorSentAt := Some(old(w.now))))
                          && Did([Stored(MarkAttempt(w.disk.value), true), Submitted(Went)])
    {
      if m.hashlock.None? || m.preimage.None? { return Idle; }
      var ok := StoreMarkers(m, m.(sponsorSentAt := Some(w.now)));
      if !ok { return Interrupted; }
      Others();
      var result: Sending := *;
      Note(Submitted(result));
      if result != Went { return Idle; }
      Do(SendSponsor(k));
      o := Sent(Sponsor);
    }

    /** The record with the attempt marker of a refund or a credit move. */
    function Attempted(m: Managed, d: Decision, at: int): Managed {
      match d
      case RefundLeg => m.(refundSentAt := Some(at))
      case WithdrawCredit => m.(withdrawSentAt := Some(at))
      case _ => m.(pushSentAt := Some(at))
    }

    /** Refunds and credit moves: the marker first, then a send that pays only its owner.
        A withdrawal goes to the responder leg while that credit reads positive, else to
        the initiator leg; the others go to the initiator leg. A contract rejection is
        counted in one counter for both legs. */
    method MoveOwnFunds(m: Managed, x: Input) returns (o: Outcome, side: Side, rejectedAt: Option<int>)
      requires Valid() && w.disk == Some(m) && x.managed == m && x.now == w.now
      requires Decide(x) == RefundLeg || Decide(x) == WithdrawCredit || Decide(x) == PushCredit
      modifies this
      ensures Valid() && Extends()
      ensures o == Sent(Decide(x)) || (o == Interrupted && Faulted())
      ensures o == Sent(WithdrawCredit) ==> (side == ResponderSide <==> x.ourResponderCredit.GetOr(0) > 0)
      ensures o == Sent(RefundLeg) || o == Sent(PushCredit) ==> side == InitiatorSide
      ensures o.Sent? && rejectedAt.Some? ==> w.disk == Some(Hostage.Rejected(x, rejectedAt.value))
      ensures o == Sent(RefundLeg) ==> w.disk == Some(m.(refundSentAt := Some(x.now)))
      ensures o == Sent(WithdrawCredit) && rejectedAt.None? ==> w.disk == Some(m.(withdrawSentAt := Some(x.now)))
      ensures o == Sent(PushCredit) && rejectedAt.None? ==> w.disk == Some(m.(pushSentAt := Some(x.now)))
      ensures o.Sent? ==> |acts| >= |old(acts)| + 2 && acts[|old(acts)|].Stored? && acts[|old(acts)|].ok
      ensures o.Sent? && Decide(x) != RefundLeg ==>
                (rejectedAt.Some? <==> acts[|old(acts)| + 1] == Submitted(Reverted))
      ensures o == Interrupted && Decide(x) != RefundLeg ==>
                |acts| > 0 && acts[|acts| - 1].Stored? && !acts[|acts| - 1].ok
    {
      var d, at := Decide(x), w.now;
      rejectedAt := None;
      side := if d == WithdrawCredit then WithdrawSide(x) else InitiatorSide;
      var n := Attempted(m, d, at);
      var ok := StoreMarkers(m, n);
      if !ok { return Interrupted, side, None; }
      o, rejectedAt := SubmitMove(n, d);
    }

    /** The send. A failed refund ends the tick; a failed credit move does not, and only
        the contract's own refusal is counted. */
    method SubmitMove(m: Managed, d: Decision) returns (o: Outcome, rejectedAt: Option<int>)
      requires Valid() && w.disk == Some(m) && (d == RefundLeg || d == WithdrawCredit || d == PushCredit)
      modifies this
      ensures Valid() && Extends()
      ensures o == Sent(d) || (o == Interrupted && Faulted())
      ensures |acts| > |old(acts)| && acts[|old(acts)|].Submitted?
      ensures d == RefundLeg ==> rejectedAt.None? && (o.Sent? <==> acts[|old(acts)|].result == Went)
      ensures d != RefundLeg && o.Sent? ==> (rejectedAt.Some? <==> acts[|old(acts)|].result == Reverted)
      ensures d != RefundLeg && o == Interrupted ==> acts[|acts| - 1].Stored? && !acts[|acts| - 1].ok
      ensures o.Sent? && rejectedAt.None? ==> w.disk == Some(m)
      ensures o.Sent? && rejectedAt.Some? ==> w.disk == Some(Counted(m, d, rejectedAt.value))
    {
      Others();
      var result: Sending := *;
      Note(Submitted(result));
      if d == RefundLeg {
        return (if result == Went then Sent(d) else Interrupted), None;
      }
      rejectedAt := None;
      if result == Reverted {
        rejectedAt := Some(w.now);
        var ok := StoreMarkers(m, Counted(m, d, w.now));
        if !ok { return Interrupted, None; }
      }
      o := Sent(d);
    }

    /** One more contract rejection; the first one is remembered. */
    function Counted(m: Managed, d: Decision, at: int): Managed {
      if d == WithdrawCredit
      then m.(withdrawAttempts := m.withdrawAttempts + 1,
              withdrawFirstRejectedAt := Some(m.withdrawFirstRejectedAt.GetOr(at)))
      else m.(pushAttempts := m.pushAttempts + 1,
              pushFirstRejectedAt := Some(m.pushFirstRejectedAt.GetOr(at)))
    }

    /** Drop the record; an abort first withdraws a listing the book still shows. */
    method Drop(m: Managed, d: Decision, reply: Reply) returns (o: Outcome)
      requires Valid() && w.disk == Some(m) && (d == Finish || d == Abort)
      requires d == Abort ==> m.lockSentAt.None?
      requires d == Finish && UnderH(e, m) ==> w.settled
      modifies this
      ensures Valid() && Extends()
      ensures o == Interrupted || o == Idle || (o == Retired && w.disk.None?)
      ensures o != Retired ==> Faulted()
      ensures d == Finish ==> o != Idle
      ensures d == Abort && reply != Gone && reply != CancelledView && !m.Filled() ==> o != Retired || WithdrawnFirst()
      ensures d == Finish || reply == Gone || reply == CancelledView || m.Filled() ==>
                Did([Stored(Retire, o == Retired)])
    {
      Holds();
      if d == Abort && reply != Gone && reply != CancelledView && !m.Filled() {
        o := CancelAndRetire(m);
      } else {
        o := RetireRecord();
      }
    }

    /** Why a decision left nothing done: there was nothing to do, something failed, or a
        lock was blocked by the publication of its own fill or withheld by the fresh look. */
    ghost predicate IdleBecause(d: Decision, blockedByBook: bool, base: nat, before: nat)
      reads this
    {
      d == Wait || faults > before || (d == LockLeg && (blockedByBook || Withheld(base)))
    }

    /** Act on an answer that moves a leg. */
    method ActOnLegs(m: Managed, x: Input, k: nat, blockedByBook: bool) returns (o: Outcome)
      requires Valid() && w.disk == Some(m) && x.managed == m && x.now == w.now
      requires x.expectedRecipient == e.payee && x.expectedAmount == e.toAmount && x.expectedToken == e.toToken
      requires x.claimSafetyS == e.claimSafetyS
      requires UnderH(e, m) && x.rConfirmed.Some? ==>
                 k <= w.responder.final < |w.responder.hist| && w.responder.hist[k] == x.rConfirmed.value
      requires Decide(x) == LockLeg || Decide(x) == ClaimLeg || Decide(x) == Sponsor
      modifies this
      ensures Valid() && Extends()
      ensures EndsAs(o)
      ensures o == Interrupted || o == Idle || o == Sent(Decide(x))
      ensures o == Interrupted ==> Faulted()
      ensures o == Idle ==> IdleBecause(Decide(x), blockedByBook, |old(acts)|, old(faults))
      ensures o == Sent(LockLeg) ==> !blockedByBook && LockedAfterLook(|old(acts)|)
      ensures o == Sent(ClaimLeg) ==> ClaimedAfterChecks(m, |old(acts)|)
      ensures Decide(x) == ClaimLeg ==> o != Idle
    {
      Holds();
      AnswerFacts(x);
      if Decide(x) == LockLeg {
        o := LockInitiator(m, x.iState, blockedByBook);
      } else if Decide(x) == ClaimLeg {
        o := ClaimResponder(m, x.rConfirmed.value, k, x.now);
      } else {
        o := SponsorTaker(m, k);
      }
    }

    /** Act on the decision taken. */
    method Act(m: Managed, x: Input, reply: Reply, k: nat, blockedByBook: bool) returns (o: Outcome)
      requires Valid() && w.disk == Some(m) && x.managed == m && x.now == w.now
      requires x.expectedRecipient == e.payee && x.expectedAmount == e.toAmount && x.expectedToken == e.toToken
      requires x.claimSafetyS == e.claimSafetyS
      requires UnderH(e, m) && x.iState.Some? && Terminal(x.iState.value) ==> w.settled
      requires UnderH(e, m) && x.rConfirmed.Some? ==>
                 k <= w.responder.final < |w.responder.hist| && w.responder.hist[k] == x.rConfirmed.value
      modifies this
      ensures Valid() && Extends()
      ensures EndsAs(o)
      ensures ActsOn(Decide(x), o) && (Decide(x) == Wait ==> w == old(w))
      ensures o == Interrupted ==> Faulted() || Decide(x) == Announce
      ensures o == Idle ==> IdleBecause(Decide(x), blockedByBook, |old(acts)|, old(faults))
      ensures o == Sent(LockLeg) ==> !blockedByBook && LockedAfterLook(|old(acts)|)
      ensures o == Sent(ClaimLeg) ==> ClaimedAfterChecks(m, |old(acts)|)
    {
      AnswerFacts(x);
      match Decide(x) {
        case Wait => o := Idle;
        case Announce => o := Interrupted;
        case LockLeg | ClaimLeg | Sponsor => o := ActOnLegs(m, x, k, blockedByBook);
        case RefundLeg | WithdrawCredit | PushCredit =>
          var side, rejectedAt;
          o, side, rejectedAt := MoveOwnFunds(m, x);
        case Finish => o := Drop(m, Finish, reply);
        case Abort => o := Drop(m, Abort, reply);
      }
    }

    /** Decide from this tick's reads and act on the answer. */
    method Settle(m: Managed, reply: Reply, r: Reads, k: nat, blockedByBook: bool) returns (o: Outcome, d: Decision)
      requires Valid() && w.disk == Some(m)
      requires UnderH(e, m) && r.iState.Some? && Terminal(r.iState.value) ==> w.settled
      requires UnderH(e, m) && r.rConfirmed.Some? ==>
                 k <= w.responder.final < |w.responder.hist| && w.responder.hist[k] == r.rConfirmed.value
      modifies this
      ensures Valid() && Extends()
      ensures EndsAs(o)
      ensures exists c :: d == Decide(Question(e, cfg, m, reply, r, c, old(w.now)))
      ensures ActsOn(d, o) && (d == Wait ==> w == old(w))
      ensures o == Interrupted ==> Faulted()
      ensures o == Idle ==> IdleBecause(d, blockedByBook, |old(acts)|, old(faults))
      ensures o == Sent(LockLeg) ==> !blockedByBook && LockedAfterLook(|old(acts)|)
      ensures o == Sent(ClaimLeg) ==> ClaimedAfterChecks(m, |old(acts)|)
    {
      var c: Credits := *;
      var x := Question(e, cfg, m, reply, r, c, w.now);
      d := Decide(x);
      NeverAnnounces(e, cfg, m, reply, r, c, w.now);
      o := Act(m, x, reply, k, blockedByBook);
    }

    /** What a tick's outcome says about the run it leaves behind. */
    ghost predicate EndsAs(o: Outcome)
      reads this
    {
      && (o == Retired ==> w.disk.None?)
      && (o == Published ==> w.disk.Some? && w.disk.value.Acknowledged() && DurableDecision(w.disk.value).Some?
                             && DurableDecision(w.disk.value).value in w.published)
      && (o == Sent(LockLeg) ==> |steps| > 0 && steps[|steps| - 1] == SendLock)
      && (o == Sent(ClaimLeg) ==> |steps| > 0 && steps[|steps| - 1].SendClaim?)
      && (o == Sent(Sponsor) ==> |steps| > 0 && steps[|steps| - 1].SendSponsor?)
    }

    /** What an open listing without a fill comes to: it is withdrawn while draining or
        when its price is stale, and filled only otherwise. */
    ghost predicate ListingServed(m: Managed, o: Outcome, base: nat, before: nat)
      reads this
      requires m.protocol.Some?
    {
      && !o.Sent?
      && (!cfg.drain ==> base < |acts| && acts[base].Quoted?)
      && (cfg.drain || acts[base].stale ==> (o == Retired && WithdrawnFirst()) || faults > before)
      && (o == Published ==> !cfg.drain && !acts[base].stale && w.disk.Some? && FillIsLawful(w.disk.value))
      && (o == Retired ==> WithdrawnFirst())
      && (o == Retired && !cfg.drain && !acts[base].stale ==> m.protocol.value.orderExpiresAt < w.now + 60)
      && (o == Idle ==> faults > before || (w.disk.Some? && !LiveSelection(w.disk.value, w.now)))
      && (o == Interrupted ==> faults > before || e.responderWindowS < 661)
    }

    /** Drain, reprice or fill an open listing. */
    method ServeListing(m: Managed) returns (o: Outcome)
      requires Valid() && w.disk == Some(m) && Undecided(m)
      modifies this
      ensures Valid() && Extends() && EndsAs(o)
      ensures ListingServed(m, o, |old(acts)|, old(faults))
    {
      if cfg.drain {
        o := CancelAndRetire(m);
      } else {
        var stale: bool := *;
        Note(Quoted(stale));
        if stale { o := CancelAndRetire(m); } else { o := SelectAndFill(m); }
      }
    }

    /** Branches that need no decision: `done` when one of them ended the tick. */
    method Coordinate(m: Managed, reply: Reply, iState: Option<LegState>) returns (done: bool, o: Outcome)
      requires Valid() && w.disk == Some(m) && reply != Failed && (reply.LockingView? ==> m.Filled())
      modifies this
      ensures Valid() && Extends()
      ensures m.protocol.Some? && (done <==> BookEndsTick(m, reply, iState, old(w.now)))
      ensures !done ==> w == old(w) && acts == old(acts) && faults == old(faults)
      ensures done ==> EndsAs(o) && !o.Sent?
      ensures done && o == Interrupted ==> Faulted() || reply == Unavailable || e.responderWindowS < 661
      ensures reply == Unavailable && !CanContinueWithoutBook(m, iState) ==> w == old(w) && o == Interrupted
      ensures reply != Unavailable && Undecided(m) && m.protocol.value.orderExpiresAt <= old(w.now)
              && !CanContinueWithoutBook(m, iState)
              ==> Did([Stored(Retire, o == Retired)])
      ensures reply == Gone && (m.Cancelled() || (Undecided(m) && m.protocol.value.selectedIntent.None?
                                                  && m.protocol.value.orderExpiresAt > old(w.now))) ==>
                o == Idle && w == old(w)
      ensures m.Cancelled() && (reply == CancelledView || reply == OpenView) ==> o == Retired || Faulted()
      ensures reply == Gone && Undecided(m) && m.protocol.value.selectedIntent.None?
              && m.protocol.value.orderExpiresAt <= old(w.now)
              ==> Did([Stored(Retire, o == Retired)])
      ensures reply == OpenView && Undecided(m)
              && (m.protocol.value.orderExpiresAt > old(w.now) || CanContinueWithoutBook(m, iState))
              ==> ListingServed(m, o, |old(acts)|, old(faults))
    {
      Holds();
      done, o := true, Interrupted;
      var p := m.protocol.value;
      if reply == Unavailable && !CanContinueWithoutBook(m, iState) { return; }
      if p.orderExpiresAt <= w.now && Undecided(m) && !CanContinueWithoutBook(m, iState) {
        o := RetireRecord();
        return;
      }
      if reply == Gone && p.selectedIntent.None? && Undecided(m) {
        if p.orderExpiresAt <= w.now { o := RetireRecord(); } else { o := Idle; }
        return;
      }
      if m.Cancelled() {
        o := ResumeCancel(m, reply);
        return;
      }
      if reply == OpenView && !m.Filled() {
        o := ServeListing(m);
        return;
      }
      done := false;
    }

    /** What a tick looked at, decided and did from the book's answer on, with the acts
        from `base` and the faults from `before` on its own. */
    ghost predicate Answers(t: Pass, o: Outcome, base: nat, before: nat)
      reads this
    {
      && t.record.protocol.Some?
      && (o == Interrupted ==> faults > before || e.responderWindowS < 661)
      && (t.decision.None? ==>
            || BookEndsTick(t.record, t.reply, t.legs.iState, t.at)
            || (t.record.Filled() && t.reply == OpenView && (o == Published || o == Interrupted)))
      && (t.decision.Some? ==>
            && !BookEndsTick(t.record, t.reply, t.legs.iState, t.at)
            && ActsOn(t.decision.value, o)
            && (exists c, at ::
                  at >= t.at && t.decision.value == Decide(Question(e, cfg, t.record, t.reply, t.legs, c, at)))
            && (o == Sent(LockLeg) ==> exists looked :: looked >= base && LockedAfterLook(looked))
            && (o == Sent(ClaimLeg) ==> exists first :: first >= base && ClaimedAfterChecks(t.record, first)))
    }

    /** One pass over the order, starting from what is on disk. */
    method Advance() returns (o: Outcome, t: Option<Pass>)
      requires Valid() && w.disk.Some?
      modifies this
      ensures Valid() && Extends()
      ensures EndsAs(o)
      ensures CanRetireExpiredUnfundedQuote(old(w).disk.value, old(w).now) ==>
                t == None && Did([Stored(Retire, o == Retired)]) && (o == Retired || o == Interrupted)
      ensures !CanRetireExpiredUnfundedQuote(old(w).disk.value, old(w).now) ==>
                Reports(old(w).disk.value, o, t, |old(acts)|, old(faults))
    {
      Holds();
      t := None;
      var m := w.disk.value;
      if CanRetireExpiredUnfundedQuote(m, w.now) {
        o := RetireRecord();
        return;
      }
      o, t := AskFirst(m);
    }

    /** What a pass that asked the book, the act at `base`, reports of itself. */
    ghost predicate Reports(m: Managed, o: Outcome, t: Option<Pass>, base: nat, before: nat)
      reads this
    {
      && base < |acts| && acts[base].Asked?
      && (t.None? ==> o == Interrupted && faults > before)
      && (t.Some? ==>
            && m.protocol.Some? && t.value.reply == acts[base].reply
            && t.value.record == (if t.value.reply.LockingView? then Observed(m, t.value.reply.released) else m)
            && Answers(t.value, o, base + 1, before))
    }

    /** The book comes first, and what it shows is stored before anything else. */
    method AskFirst(m: Managed) returns (o: Outcome, t: Option<Pass>)
      requires Valid() && w.disk == Some(m) && m.protocol.Some?
      modifies this
      ensures Valid() && Extends()
      ensures EndsAs(o)
      ensures Reports(m, o, t, |old(acts)|, old(faults))
    {
      t := None;
      var n := m;
      var reply := FetchBook(m);
      if reply == Failed { return Interrupted, None; }
      if reply.LockingView? {
        var ok;
        n, ok := PersistObservation(m, reply);
        if !ok { return Interrupted, None; }
      }
      var pass;
      o, pass := ReadAndAct(n, reply, old(faults));
      t := Some(pass);
    }

    /** A stored fill that the book does not show yet is published again. The tick goes
        on, with new locks blocked, only if the book cannot be reached and something
        durable carries the order. */
    method Republish(m: Managed, reply: Reply, r: Reads, k: nat) returns (done: bool, o: Outcome, blocked: bool)
      requires Valid() && w.disk == Some(m)
      requires UnderH(e, m) && r.iState.Some? && Terminal(r.iState.value) ==> w.settled
      requires UnderH(e, m) && r.rConfirmed.Some? ==>
                 k <= w.responder.final < |w.responder.hist| && w.responder.hist[k] == r.rConfirmed.value
      modifies this
      ensures Valid() && Extends()
      ensures !(m.Filled() && reply == OpenView) ==> !done && !blocked && w == old(w) && acts == old(acts)
      ensures done ==> EndsAs(o) && (o == Published || (o == Interrupted && Faulted()))
      ensures m.Filled() && reply == OpenView ==>
                |acts| > |old(acts)| && acts[|old(acts)|].Posted? && blocked == !done
      ensures blocked ==> acts[|old(acts)|].reply == Unavailable && CanContinueWithoutBook(m, r.iState) && Faulted()
      ensures !done ==> w.disk == Some(m) && (UnderH(e, m) && r.iState.Some? && Terminal(r.iState.value) ==> w.settled)
      ensures !done && UnderH(e, m) && r.rConfirmed.Some? ==>
                k <= w.responder.final < |w.responder.hist| && w.responder.hist[k] == r.rConfirmed.value
    {
      done, o, blocked := false, Idle, false;
      if m.Filled() && reply == OpenView {
        var published, unavailable := PublishStoredFill(m);
        if published { Holds(); return true, Published, false; }
        if !unavailable || !CanContinueWithoutBook(m, r.iState) { return true, Interrupted, false; }
        blocked := true;
      }
    }

    /** The rest of the pass, from the chain reads on. */
    method ReadAndAct(m: Managed, reply: Reply, ghost before: nat) returns (o: Outcome, t: Pass)
      requires Valid() && w.disk == Some(m) && reply != Failed && (reply.LockingView? ==> m.Filled())
      requires before <= faults && (reply == Unavailable ==> before < faults)
      modifies this
      ensures Valid() && Extends()
      ensures EndsAs(o)
      ensures t.record == m && t.reply == reply && Answers(t, o, |old(acts)|, before)
    {
      var r, k := ReadLegs(m);
      t := Pass(m, reply, r, w.now, None);
      var done;
      done, o := Coordinate(m, reply, r.iState);
      if done { return; }
      var blockedByBook;
      done, o, blockedByBook := Republish(m, reply, r, k);
      if done { return; }
      var d;
      o, d := Settle(m, reply, r, k, blockedByBook);
      t := t.(decision := Some(d));
    }

    /** Any number of ticks, with anything in between and a restart at every point:
        the run keeps every promise of MakerRun. */
    method Serve(ticks: nat)
      requires Valid()
      modifies this
      ensures Valid() && Extends()
      ensures Exposed(e, w) ==>
                HoldsSecret(e, w)
                || exists j :: 0 <= j < |steps| && steps[j].Retire? && ExposedAtDepth(e, ws[j])
      ensures forall a, b :: a in w.published && b in w.published ==> a == b
      ensures w.initiator.Ok() && w.responder.Ok()
      ensures w.initiator.Head().status == Claimed && !w.late ==>
                (Paid(e, w) || ClaimUnderWay(e, w)) && w.responder.Head().status != Refunded
    {
      for n := 0 to ticks
        invariant Valid() && old(ws) <= ws && old(steps) <= steps && old(w).now <= w.now
        invariant old(acts) <= acts && old(faults) <= faults
      {
        Others();
        if w.disk.Some? { var o, t := Advance(); }
      }
      Holds();
      if Exposed(e, w) { NoOrphanedEscrow(e, ws, steps, |ws| - 1); }
      if w.initiator.Head().status == Claimed && !w.late {
        MakerAtomicity(e, ws, steps, |ws| - 1, |w.initiator.hist| - 1);
      }
    }
  }
}
