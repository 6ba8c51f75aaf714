/**
 * The single-writer lease (`StateProcessLease.acquire` and `close`): any number of
 * starters in one PID namespace, interleaved file operation by file operation. A
 * record is live exactly when its process is; ids never repeat.
 */
module Lease {
  type Proc = nat

  /** A lock file: a created but unwritten file reads as "no usable record". */
  datatype File = Absent | Partial(creator: Proc) | Record(owner: Proc, id: nat)

  datatype Result = Grant(lease: nat) | Retry | Refuse

  /** The next file operation of one starter. `g` is its guard id, `l` its lease id. */
  datatype Pc =
    | Idle
    | Observe | WantGuard | WriteGuard(g: nat) | ReadGuard | TakeOver
    | Inside(g: nat) | CreateLease(g: nat) | ReplaceLease(g: nat) | WriteLease(g: nat, l: nat) | Confirm(g: nat, l: nat)
    | Release(g: nat, result: Result) | DropGuard(g: nat, result: Result)
    | Holding(l: nat) | Closing(l: nat)
    | Out

  datatype World = World(lease: File, guard: File, alive: set<Proc>, pcs: map<Proc, Pc>, nextId: nat) {
    function At(p: Proc): Pc { if p in pcs then pcs[p] else Idle }
    predicate Live(f: File) { f.Record? && f.owner in alive }
    function Goto(p: Proc, pc: Pc): World { this.(pcs := pcs[p := pc]) }
  }

  /** `Throw` is an I/O error at the next operation; `late` errors come after its effect. */
  datatype Event =
    | Start(p: Proc) | Step(p: Proc) | Throw(p: Proc, late: bool) | GiveUp(p: Proc) | Close(p: Proc) | Die(p: Proc)

  function After(r: Result): Pc {
    match r
    case Grant(l) => Holding(l)
    case Retry => Observe
    case Refuse => Out
  }

  function Operate(w: World, p: Proc): World {
    match w.At(p)
    case Observe => w.Goto(p, if w.Live(w.lease) then Out else WantGuard)
    case WantGuard =>
      if w.guard.Absent? then w.Goto(p, WriteGuard(w.nextId)).(guard := Partial(p), nextId := w.nextId + 1)
      else w.Goto(p, ReadGuard)
    case WriteGuard(g) => w.Goto(p, Inside(g)).(guard := Record(p, g))
    case ReadGuard => w.Goto(p, if w.guard.Record? && !w.Live(w.guard) then TakeOver else Observe)
    case TakeOver => w.Goto(p, Inside(w.nextId)).(guard := Record(p, w.nextId), nextId := w.nextId + 1)
    case Inside(g) =>
      w.Goto(p, if w.Live(w.lease) then Release(g, Refuse)
                else if w.lease.Absent? then CreateLease(g) else ReplaceLease(g))
    case CreateLease(g) =>
      if w.lease.Absent? then w.Goto(p, WriteLease(g, w.nextId)).(lease := Partial(p), nextId := w.nextId + 1)
      else w.Goto(p, Release(g, Retry))
    case ReplaceLease(g) => w.Goto(p, Confirm(g, w.nextId)).(lease := Record(p, w.nextId), nextId := w.nextId + 1)
    case WriteLease(g, l) => w.Goto(p, Confirm(g, l)).(lease := Record(p, l))
    case Confirm(g, l) => w.Goto(p, Release(g, if w.lease.Record? && w.lease.id == l then Grant(l) else Retry))
    case Release(g, r) => w.Goto(p, if w.guard.Record? && w.guard.id == g then DropGuard(g, r) else After(r))
    case DropGuard(g, r) => w.Goto(p, After(r)).(guard := Absent)
    case Closing(l) => w.Goto(p, Out).(lease := Absent)
    case _ => w
  }

  /** An error inside the guard still runs the release; elsewhere it ends the attempt. */
  function Fail(w: World, p: Proc, late: bool): World {
    match w.At(p)
    case WriteGuard(g) => if late then w.Goto(p, Out).(guard := Record(p, g)) else w.Goto(p, Out)
    case TakeOver =>
      if late then w.Goto(p, Out).(guard := Record(p, w.nextId), nextId := w.nextId + 1) else w.Goto(p, Out)
    case Inside(g) => w.Goto(p, Release(g, Refuse))
    case CreateLease(g) => w.Goto(p, Release(g, Refuse))
    case ReplaceLease(g) =>
      if late then w.Goto(p, Release(g, Refuse)).(lease := Record(p, w.nextId), nextId := w.nextId + 1)
      else w.Goto(p, Release(g, Refuse))
    case WriteLease(g, l) =>
      if late then w.Goto(p, Release(g, Refuse)).(lease := Record(p, l)) else w.Goto(p, Release(g, Refuse))
    case Confirm(g, _) => w.Goto(p, Release(g, Refuse))
    case Release(_, _) => w.Goto(p, Out)
    case DropGuard(_, _) => if late then w.Goto(p, Out).(guard := Absent) else w.Goto(p, Out)
    case Closing(_) => if late then w.Goto(p, Out).(lease := Absent) else w.Goto(p, Out)
    case Observe => w.Goto(p, Out)
    case WantGuard => w.Goto(p, Out)
    case ReadGuard => w.Goto(p, Out)
    case _ => w
  }

  function Next(w: World, e: Event): World {
    match e
    case Start(p) => // a new process is new: its pid and start time match no record
      if p in w.pcs || p in w.alive || (w.lease.Record? && w.lease.owner == p) then w
      else w.Goto(p, Observe).(alive := w.alive + {p})
    case Step(p) => if p in w.alive then Operate(w, p) else w
    case Throw(p, late) => if p in w.alive then Fail(w, p, late) else w
    case GiveUp(p) => if p in w.alive && w.At(p).Observe? then w.Goto(p, Out) else w
    case Close(p) =>
      if p in w.alive && w.At(p).Holding? then
        w.Goto(p, if w.lease.Record? && w.lease.id == w.At(p).l then Closing(w.At(p).l) else Out)
      else w
    case Die(p) => w.(alive := w.alive - {p})
  }

  /** Any leftovers on disk, but no guard, and nobody running yet. */
  predicate Init(w: World) {
    && w.guard.Absent? && w.pcs == map[] && w.alive == {}
    && (w.lease.Record? ==> w.lease.id < w.nextId)
  }

  /** No starter dies while a complete guard record of its own is on disk. */
  predicate Orderly(w: World, e: Event) { e.Die? ==> !(w.guard.Record? && w.guard.owner == e.p) }

  function Run(w: World, es: seq<Event>): World {
    if es == [] then w else Next(Run(w, es[..|es| - 1]), es[|es| - 1])
  }

  ghost predicate OrderlyRun(w: World, es: seq<Event>) {
    forall n :: 0 <= n < |es| ==> Orderly(Run(w, es[..n]), es[n])
  }

  // ---- exclusion ----

  /** What a starter at `pc` may rely on. */
  predicate Knows(w: World, p: Proc) {
    match w.At(p)
    case TakeOver => false
    case WriteGuard(g) => w.guard == Partial(p) && g < w.nextId
    case Inside(g) => w.guard == Record(p, g)
    case CreateLease(g) => w.guard == Record(p, g) && !w.Live(w.lease)
    case ReplaceLease(g) => w.guard == Record(p, g) && !w.Live(w.lease)
    case WriteLease(g, l) => w.guard == Record(p, g) && w.lease == Partial(p) && l < w.nextId
    case Confirm(g, l) => w.guard == Record(p, g) && w.lease == Record(p, l)
    case Release(g, r) => w.guard == Record(p, g) && (r.Grant? ==> w.lease == Record(p, r.lease))
    case DropGuard(g, r) => w.guard == Record(p, g) && (r.Grant? ==> w.lease == Record(p, r.lease))
    case Holding(l) => w.lease == Record(p, l)
    case Closing(l) => w.lease == Record(p, l)
    case _ => true
  }

  ghost predicate Inv(w: World) {
    && (w.guard.Record? ==> w.guard.owner in w.alive && w.guard.id < w.nextId)
    && (w.lease.Record? ==> w.lease.id < w.nextId)
    && (forall p :: p in w.alive ==> p in w.pcs)
    && (forall p :: p in w.alive ==> Knows(w, p))
  }

  /** One starter's operation never invalidates what another one knows. */
  lemma OperateKeepsOthers(w: World, p: Proc, q: Proc)
    requires p != q && p in w.alive && q in w.alive && Knows(w, p) && Knows(w, q)
    ensures Knows(Operate(w, p), q)
  {
    assert Operate(w, p).At(q) == w.At(q) && Operate(w, p).alive == w.alive;
  }

  lemma OperateKeepsOwn(w: World, p: Proc)
    requires Inv(w) && p in w.alive
    ensures Knows(Operate(w, p), p)
  {
    assert Knows(w, p);
  }

  lemma OperateKeepsInv(w: World, p: Proc)
    requires Inv(w) && p in w.alive
    ensures Inv(Operate(w, p))
  {
    var w' := Operate(w, p);
    assert w'.alive == w.alive && w'.pcs.Keys == w.pcs.Keys + {p};
    forall q | q in w'.alive ensures Knows(w', q) {
      if q == p { OperateKeepsOwn(w, p); } else { OperateKeepsOthers(w, p, q); }
    }
    assert Knows(w, p);
  }

  lemma FailKeepsOthers(w: World, p: Proc, late: bool, q: Proc)
    requires p != q && p in w.alive && q in w.alive && Knows(w, p) && Knows(w, q)
    ensures Knows(Fail(w, p, late), q)
  {
    assert Fail(w, p, late).At(q) == w.At(q) && Fail(w, p, late).alive == w.alive;
  }

  lemma FailKeepsInv(w: World, p: Proc, late: bool)
    requires Inv(w) && p in w.alive
    ensures Inv(Fail(w, p, late))
  {
    var w' := Fail(w, p, late);
    assert Knows(w, p);
    assert w'.alive == w.alive && w'.pcs.Keys == w.pcs.Keys + {p};
    forall q | q in w'.alive ensures Knows(w', q) {
      if q != p { FailKeepsOthers(w, p, late, q); }
    }
  }

  lemma NextKeepsInv(w: World, e: Event)
    requires Inv(w) && Orderly(w, e)
    ensures Inv(Next(w, e))
  {
    var w' := Next(w, e);
    match e
    case Step(p) => if p in w.alive { OperateKeepsInv(w, p); }
    case Throw(p, late) => if p in w.alive { FailKeepsInv(w, p, late); }
    case Start(p) =>
      forall q | q in w'.alive ensures Knows(w', q) {
        if q != p { assert Knows(w, q); }
      }
    case GiveUp(p) => forall q | q in w'.alive ensures Knows(w', q) { assert Knows(w, q); }
    case Close(p) => forall q | q in w'.alive ensures Knows(w', q) { assert Knows(w, q); }
    case Die(p) => forall q | q in w'.alive ensures Knows(w', q) { assert Knows(w, q); }
  }

  lemma {:induction false} RunKeepsInv(w: World, es: seq<Event>)
    requires Init(w) && OrderlyRun(w, es)
    ensures Inv(Run(w, es))
  {
    if es != [] {
      var front := es[..|es| - 1];
      forall n | 0 <= n < |front| ensures Orderly(Run(w, front[..n]), front[n]) {
        assert front[..n] == es[..n];
        assert Orderly(Run(w, es[..n]), es[n]);
      }
      RunKeepsInv(w, front);
      assert Orderly(Run(w, es[..|es| - 1]), es[|es| - 1]);
      NextKeepsInv(Run(w, front), es[|es| - 1]);
    }
  }

  /** At most one live process holds an unreleased lease. */
  lemma MutualExclusion(w: World, es: seq<Event>, p: Proc, q: Proc)
    requires Init(w) && OrderlyRun(w, es)
    requires var v := Run(w, es); p in v.alive && q in v.alive && v.At(p).Holding? && v.At(q).Holding?
    ensures p == q
  {
    RunKeepsInv(w, es);
    var v := Run(w, es);
    assert Knows(v, p) && Knows(v, q);
  }

  // ---- and without the hypothesis ----

  lemma Extend(w: World, v: World, es: seq<Event>, e: Event) returns (v': World, es': seq<Event>)
    requires Run(w, es) == v
    ensures v' == Next(v, e) && es' == es + [e] && Run(w, es') == v'
  {
    v', es' := Next(v, e), es + [e];
    assert es'[..|es'| - 1] == es;
  }

  /** A new starter that meets a dead starter's guard goes to take it over. */
  lemma MeetsDeadGuard(w: World, v: World, es: seq<Event>, p: Proc) returns (v': World, es': seq<Event>)
    requires Run(w, es) == v && p !in v.pcs && p !in v.alive
    requires !(v.lease.Record? && v.lease.owner == p) && !v.Live(v.lease)
    requires v.guard.Record? && v.guard.owner != p && !v.Live(v.guard)
    ensures Run(w, es') == v' && v' == v.Goto(p, TakeOver).(alive := v.alive + {p})
  {
    v', es' := Extend(w, v, es, Start(p));
    v', es' := Extend(w, v', es', Step(p));
    v', es' := Extend(w, v', es', Step(p));
    v', es' := Extend(w, v', es', Step(p));
    assert v'.pcs == v.pcs[p := TakeOver];
  }

  /** It renames its record over the guard and reads the stale lease. */
  lemma TakesGuardOver(w: World, v: World, es: seq<Event>, p: Proc) returns (v': World, es': seq<Event>)
    requires Run(w, es) == v && p in v.alive && v.At(p) == TakeOver
    requires !v.lease.Absent? && !v.Live(v.lease)
    ensures Run(w, es') == v'
    ensures v' == v.Goto(p, ReplaceLease(v.nextId)).(guard := Record(p, v.nextId), nextId := v.nextId + 1)
  {
    v', es' := Extend(w, v, es, Step(p));
    v', es' := Extend(w, v', es', Step(p));
    assert v'.pcs == v.pcs[p := ReplaceLease(v.nextId)];
  }

  /** It renames its record over the lease and confirms it. */
  lemma WritesAndConfirms(w: World, v: World, es: seq<Event>, p: Proc, g: nat) returns (v': World, es': seq<Event>)
    requires Run(w, es) == v && p in v.alive && v.At(p) == ReplaceLease(g)
    ensures Run(w, es') == v'
    ensures v' == v.Goto(p, Release(g, Grant(v.nextId))).(lease := Record(p, v.nextId), nextId := v.nextId + 1)
  {
    v', es' := Extend(w, v, es, Step(p));
    v', es' := Extend(w, v', es', Step(p));
    assert v'.pcs == v.pcs[p := Release(g, Grant(v.nextId))];
  }

  lemma DiesHoldingGuard(w: World) returns (v: World, es: seq<Event>)
    requires w == World(Record(9, 0), Absent, {}, map[], 1)
    ensures Run(w, es) == v && v == World(Record(9, 0), Record(1, 1), {}, map[1 := Inside(1)], 2)
  {
    v, es := w, [];
    v, es := Extend(w, v, es, Start(1));
    v, es := Extend(w, v, es, Step(1));
    assert v == World(Record(9, 0), Absent, {1}, map[1 := WantGuard], 1);
    v, es := Extend(w, v, es, Step(1));
    v, es := Extend(w, v, es, Step(1));
    assert v == World(Record(9, 0), Record(1, 1), {1}, map[1 := Inside(1)], 2);
    v, es := Extend(w, v, es, Die(1));
  }

  /** Past the confirmation nothing stops either of them. */
  lemma BothReturn(w: World, v: World, es: seq<Event>, p: Proc, q: Proc) returns (es': seq<Event>)
    requires Run(w, es) == v && p != q && p in v.alive && q in v.alive
    requires v.At(p).Release? && v.At(p).result.Grant? && v.At(q).Release? && v.At(q).result.Grant?
    requires v.guard == Record(q, v.At(q).g) && v.At(p).g != v.At(q).g
    ensures var v' := Run(w, es'); p in v'.alive && q in v'.alive && v'.At(p).Holding? && v'.At(q).Holding?
  {
    var v';
    v', es' := Extend(w, v, es, Step(p));
    v', es' := Extend(w, v', es', Step(q));
    v', es' := Extend(w, v', es', Step(q));
  }

  /** Both have met the dead guard; each takes it over and installs its own lease. */
  lemma BothInstall(w: World, v: World, es: seq<Event>, p: Proc, q: Proc) returns (es': seq<Event>)
    requires Run(w, es) == v && p != q && p in v.alive && q in v.alive
    requires v.At(p) == TakeOver && v.At(q) == TakeOver && !v.lease.Absent? && !v.Live(v.lease)
    ensures var v' := Run(w, es'); p in v'.alive && q in v'.alive && v'.At(p).Holding? && v'.At(q).Holding?
  {
    var v1, v2, v3, v4;
    v1, es' := TakesGuardOver(w, v, es, p);
    assert v1.At(q) == TakeOver;
    v2, es' := TakesGuardOver(w, v1, es', q);
    assert v2.At(p) == ReplaceLease(v.nextId) && v2.At(q) == ReplaceLease(v.nextId + 1);
    v3, es' := WritesAndConfirms(w, v2, es', p, v.nextId);
    assert v3.At(q) == ReplaceLease(v.nextId + 1);
    v4, es' := WritesAndConfirms(w, v3, es', q, v.nextId + 1);
    assert v4.At(p) == Release(v.nextId, Grant(v2.nextId)) && v4.guard == Record(q, v.nextId + 1);
    es' := BothReturn(w, v4, es', p, q);
  }

  /** The converse of exclusion: from every state in which a dead starter's complete guard
      record and a stale lease are on disk, any two new starters can both return from
      acquisition. No stall is needed, only that both meet the guard before either
      replaces it. */
  lemma DeadGuardLetsTwoThrough(w: World, es: seq<Event>, p: Proc, q: Proc) returns (es': seq<Event>)
    requires p != q && p !in Run(w, es).pcs && q !in Run(w, es).pcs && p !in Run(w, es).alive && q !in Run(w, es).alive
    requires var v := Run(w, es);
      && v.guard.Record? && !v.Live(v.guard) && v.guard.owner != p && v.guard.owner != q
      && !v.lease.Absent? && !v.Live(v.lease)
      && !(v.lease.Record? && (v.lease.owner == p || v.lease.owner == q))
    ensures var v' := Run(w, es'); p in v'.alive && q in v'.alive && v'.At(p).Holding? && v'.At(q).Holding?
  {
    var v := Run(w, es);
    var v1, v2;
    v1, es' := MeetsDeadGuard(w, v, es, p);
    v2, es' := MeetsDeadGuard(w, v1, es', q);
    assert v2.At(p) == TakeOver && v2.At(q) == TakeOver;
    es' := BothInstall(w, v2, es', p, q);
  }

  /** And such states arise: one starter dies inside its guard over a stale lease. */
  lemma TwoHoldersAreReachable() returns (w: World, es: seq<Event>)
    ensures Init(w)
    ensures var v := Run(w, es); 2 in v.alive && 3 in v.alive && v.At(2).Holding? && v.At(3).Holding?
  {
    w := World(Record(9, 0), Absent, {}, map[], 1);
    var v;
    v, es := DiesHoldingGuard(w);
    es := DeadGuardLetsTwoThrough(w, es, 2, 3);
  }

  // ---- a lone starter ----

  lemma StepOn(w: World, v: World, es: seq<Event>, p: Proc) returns (v': World, es': seq<Event>)
    requires Run(w, es) == v && p in v.alive
    ensures v' == Operate(v, p) && es' == es + [Step(p)] && Run(w, es') == v'
  {
    v', es' := Extend(w, v, es, Step(p));
  }

  /** A starter with the guard directory to itself enters the guard. */
  lemma Enters(w: World, p: Proc) returns (v: World, es: seq<Event>)
    requires Init(w) && !(w.lease.Record? && w.lease.owner == p)
    ensures Run(w, es) == v && v == World(w.lease, Record(p, w.nextId), {p}, map[p := Inside(w.nextId)], w.nextId + 1)
  {
    assert Run(w, []) == w;
    v, es := Extend(w, w, [], Start(p));
    assert v == World(w.lease, Absent, {p}, map[p := Observe], w.nextId);
    v, es := StepOn(w, v, es, p);
    assert v == World(w.lease, Absent, {p}, map[p := WantGuard], w.nextId);
    v, es := StepOn(w, v, es, p);
    v, es := StepOn(w, v, es, p);
    assert v.pcs == map[p := Inside(w.nextId)];
  }

  /** Inside, it installs its lease over whatever dead record it finds, or none. */
  lemma Installs(w: World, v: World, es: seq<Event>, p: Proc, g: nat) returns (v': World, es': seq<Event>)
    requires Run(w, es) == v && v.alive == {p} && v.pcs == map[p := Inside(g)] && !v.Live(v.lease)
    ensures Run(w, es') == v'
    ensures v' == World(Record(p, v.nextId), v.guard, {p}, map[p := Confirm(g, v.nextId)], v.nextId + 1)
  {
    v', es' := StepOn(w, v, es, p);
    if v.lease.Absent? {
      assert v'.pcs == map[p := CreateLease(g)];
      v', es' := StepOn(w, v', es', p);
      assert v'.pcs == map[p := WriteLease(g, v.nextId)];
      v', es' := StepOn(w, v', es', p);
    } else {
      assert v'.pcs == map[p := ReplaceLease(g)];
      v', es' := StepOn(w, v', es', p);
    }
    assert v'.pcs == map[p := Confirm(g, v.nextId)];
  }

  /** It confirms its record, drops its guard and returns. */
  lemma Leaves(w: World, v: World, es: seq<Event>, p: Proc, g: nat, l: nat) returns (v': World, es': seq<Event>)
    requires Run(w, es) == v && p in v.alive && v.At(p) == Confirm(g, l)
    requires v.lease == Record(p, l) && v.guard == Record(p, g)
    ensures Run(w, es') == v' && v' == v.Goto(p, Holding(l)).(guard := Absent)
  {
    v', es' := StepOn(w, v, es, p);
    assert v' == v.Goto(p, Release(g, Grant(l)));
    v', es' := StepOn(w, v', es', p);
    v', es' := StepOn(w, v', es', p);
    assert v'.pcs == v.pcs[p := Holding(l)];
  }

  /** A starter running alone from any leftovers ends up holding the lease, which names it
      and its id, and leaves no guard behind. */
  lemma LoneStarterAcquires(w: World, p: Proc) returns (es: seq<Event>)
    requires Init(w) && !(w.lease.Record? && w.lease.owner == p)
    ensures var v := Run(w, es);
      p in v.alive && v.At(p).Holding? && v.lease == Record(p, v.At(p).l) && v.guard.Absent?
  {
    var v;
    v, es := Enters(w, p);
    v, es := Installs(w, v, es, p, w.nextId);
    v, es := Leaves(w, v, es, p, w.nextId, w.nextId + 1);
  }

  /** And closing it removes the file again, so that the next starter can acquire. */
  lemma HolderReleases(w: World, es: seq<Event>, p: Proc) returns (es': seq<Event>)
    requires var v := Run(w, es); p in v.alive && v.At(p).Holding? && v.lease == Record(p, v.At(p).l)
    ensures Run(w, es').lease.Absent? && Run(w, es').guard == Run(w, es).guard && Run(w, es').At(p) == Out
  {
    var v;
    v, es' := Extend(w, Run(w, es), es, Close(p));
    v, es' := StepOn(w, v, es', p);
  }

  /** While a live process holds the lease, a starter is refused at its first look and
      touches nothing. */
  lemma HeldLeaseRefuses(v: World, p: Proc)
    requires p in v.alive && v.At(p) == Observe && v.Live(v.lease)
    ensures Operate(v, p) == v.Goto(p, Out)
  {
  }

  /** Nor does anybody inside the guard replace a live lease. */
  lemma LiveLeaseIsNotReplaced(v: World, p: Proc, g: nat)
    requires v.At(p) == Inside(g) && v.Live(v.lease)
    ensures Operate(v, p) == v.Goto(p, Release(g, Refuse))
  {
  }

  // ---- what a starter does about records that are not its own ----

  /** The confirming read returns the lease exactly if the file still shows this attempt's
      own id; a starter whose record was renamed over tries again. */
  lemma ConfirmsOwnIdExactly(v: World, p: Proc, g: nat, l: nat)
    requires v.At(p) == Confirm(g, l)
    ensures Operate(v, p) == v.Goto(p, Release(g, Grant(l))) <==> v.lease.Record? && v.lease.id == l
    ensures Operate(v, p) == v.Goto(p, Release(g, Grant(l))) || Operate(v, p) == v.Goto(p, Release(g, Retry))
  {
    assert v.Goto(p, Release(g, Grant(l))).At(p) != v.Goto(p, Release(g, Retry)).At(p);
  }

  /** A guard or a lease is only removed by a process that just read its own id in it. */
  lemma RemovesOwnIdExactly(v: World, p: Proc, g: nat, r: Result, l: nat)
    ensures v.At(p) == Release(g, r) ==>
      (Operate(v, p).At(p) == DropGuard(g, r) <==> v.guard.Record? && v.guard.id == g)
    ensures v.At(p) == Holding(l) && p in v.alive ==>
      (Next(v, Close(p)).At(p) == Closing(l) <==> v.lease.Record? && v.lease.id == l)
    ensures v.At(p) == Holding(l) && p in v.alive && !(v.lease.Record? && v.lease.id == l) ==>
      Next(v, Close(p)) == v.Goto(p, Out)
  {
  }

  /** A guard is taken over only if it is a complete record of a dead process; a live or
      half-written one sends the starter back to look at the lease. */
  lemma TakesOverDeadExactly(v: World, p: Proc)
    requires v.At(p) == ReadGuard
    ensures Operate(v, p) == v.Goto(p, TakeOver) <==> v.guard.Record? && v.guard.owner !in v.alive
    ensures Operate(v, p) == v.Goto(p, TakeOver) || Operate(v, p) == v.Goto(p, Observe)
  {
    assert v.Goto(p, TakeOver).At(p) != v.Goto(p, Observe).At(p);
  }

  /** Giving up touches no file and nobody else, and only happens at the lease check. */
  lemma GivingUpIsQuiet(v: World, p: Proc)
    ensures var w := Next(v, GiveUp(p));
      w == v || (p in v.alive && v.At(p) == Observe && w == v.Goto(p, Out))
  {
  }
}
