/**
 * The durable state of both clients. Memory is changed first and the whole file is
 * replaced; a write that fails before the rename is rolled back in memory, a write
 * that fails after it poisons the object, because the new file may already be the
 * durable one.
 */
module StateFile {
  import opened Common
  import opened Orders

  // ---- replacing a file ----

  /** The step of `persist` that throws, if any. */
  datatype Fault =
    | NoFault | OwnershipFault | MkdirFault | OpenFault | ChmodFault | WriteFault | FsyncFault | CloseFault
    | RenameFault | DirectorySyncFault

  /** The file other processes, and the next start, will read. */
  class Disk<E> {
    var file: Option<E>

    constructor (file: Option<E>)
      ensures this.file == file
    {
      this.file := file;
    }

    /** Write to a temporary file and rename it over the state file. `renamed` tells
        whether the new contents became the file, `ok` whether every step succeeded. */
    method Replace(contents: E, fault: Fault) returns (ok: bool, renamed: bool)
      modifies this
      ensures ok <==> fault == NoFault
      ensures renamed <==> fault == NoFault || fault == DirectorySyncFault
      ensures file == if renamed then Some(contents) else old(file)
    {
      ok, renamed := false, false;
      if fault == OwnershipFault || fault == MkdirFault || fault == OpenFault || fault == ChmodFault { return; }
      if fault == WriteFault || fault == FsyncFault || fault == CloseFault { return; }
      if fault == RenameFault { return; }
      file := Some(contents);
      renamed := true;
      if fault == DirectorySyncFault { return; }
      ok := true;
    }
  }

  function At<V>(m: map<nat, V>, k: nat): Option<V> { if k in m then Some(m[k]) else None }

  /** Set an entry back to what it was, which may be nothing. */
  function Put<V>(m: map<nat, V>, k: nat, v: Option<V>): map<nat, V> { if v.Some? then m[k := v.value] else m - {k} }

  lemma PutBack<V>(m: map<nat, V>, k: nat, v: V)
    ensures Put(m[k := v], k, At(m, k)) == m
  {
  }

  datatype Outcome = Done | Poisoned | WrongDeployment | Refused | Failed

  // ---- the maker's state file ----

  datatype Stranded = Stranded(orderId: nat, leg: nat, token: nat, account: nat, amount: nat, ownedByMaker: bool)

  type LedgerKey = (nat, nat, nat)

  function KeyOf(s: Stranded): LedgerKey { (s.leg, s.token, s.account) }

  datatype Envelope = Envelope(
    deployment: nat,
    orders: map<nat, Managed>,
    admissions: map<nat, int>,
    stranded: map<LedgerKey, Stranded>)

  /** Admissions that still count at time `now`. */
  function Live(admissions: map<nat, int>, now: int): map<nat, int> {
    map id | id in admissions && admissions[id] > now :: admissions[id]
  }

  /** `rememberAdmission`: drop what expired, then extend this order's entry. */
  function Remembered(admissions: map<nat, int>, order: Managed, now: int): map<nat, int> {
    var kept := Live(admissions, now);
    var until := RetentionUntil(order, now);
    if until.None? then kept
    else kept[order.id := Max(if order.id in kept then kept[order.id] else 0, until.value)]
  }

  function SavedAdmissions(file: Option<Envelope>): map<nat, int> {
    if file.Some? then file.value.admissions else map[]
  }

  /** `id`'s admission, or `now` when none is live. */
  function Entry(admissions: map<nat, int>, id: nat, now: int): int {
    if id in admissions && admissions[id] > now then admissions[id] else now
  }

  function LiveUntil(order: Managed, now: int): int { Max(now, RetentionUntil(order, now).GetOr(now)) }

  /** Every order of the file renews its own admission as it is loaded. */
  method Hydrate(saved: map<nat, int>, orders: map<nat, Managed>, now: int) returns (admissions: map<nat, int>)
    requires forall id :: id in orders ==> orders[id].id == id
    requires now >= 0
    ensures forall id ::
      Entry(admissions, id, now) ==
        (if id in orders then Max(Entry(saved, id, now), LiveUntil(orders[id], now)) else Entry(saved, id, now))
  {
    admissions := saved;
    var left := orders.Keys;
    while left != {}
      invariant left <= orders.Keys
      invariant forall id ::
        Entry(admissions, id, now) ==
          (if id in orders && id !in left then Max(Entry(saved, id, now), LiveUntil(orders[id], now))
           else Entry(saved, id, now))
      decreases |left|
    {
      var id :| id in left;
      RememberedEntries(admissions, orders[id], now);
      admissions := Remembered(admissions, orders[id], now);
      left := left - {id};
    }
  }

  class MakerState {
    const disk: Disk<Envelope>
    const deployment: nat
    var orders: map<nat, Managed>
    var admissions: map<nat, int>
    var stranded: map<LedgerKey, Stranded>
    var poisoned: bool
    /** The latest time any operation has read. */
    ghost var clock: int

    ghost predicate OrdersAgree() reads this, disk {
      orders == if disk.file.Some? then disk.file.value.orders else map[]
    }

    /** From now on the same admissions count in memory and on disk. */
    ghost predicate AdmissionsAgree() reads this, disk {
      Live(admissions, clock) == Live(SavedAdmissions(disk.file), clock)
    }

    ghost predicate Valid() reads this, disk { poisoned || OrdersAgree() }

    constructor (disk: Disk<Envelope>, deployment: nat, now: int)
      requires now >= 0
      requires disk.file.Some? ==> disk.file.value.deployment == deployment
      requires disk.file.Some? ==>
        forall id :: id in disk.file.value.orders ==> disk.file.value.orders[id].id == id
      ensures Valid() && !poisoned && this.disk == disk && this.deployment == deployment && clock == now
      ensures OrdersAgree()
      // memory may only know more than the file, and does exactly when some order's
      // retention is live and longer than what the file recorded for it
      ensures AdmissionsAgree() <==>
        forall id :: id in orders ==> LiveUntil(orders[id], now) <= Entry(SavedAdmissions(disk.file), id, now)
    {
      this.disk, this.deployment := disk, deployment;
      poisoned, clock := false, now;
      orders, admissions, stranded := map[], map[], map[];
      if disk.file.Some? {
        var saved := disk.file.value;
        orders, stranded := saved.orders, saved.stranded;
        var loaded := Hydrate(saved.admissions, saved.orders, now);
        admissions := loaded;
        SameEntries(loaded, saved.admissions, now);
      }
    }

    /** Publish memory. Only the rename decides what the next start will see. */
    method Persist(now: int, fault: Fault) returns (ok: bool)
      requires !poisoned && clock <= now
      modifies this`poisoned, this`clock, disk
      ensures clock == now
      ensures ok <==> fault == NoFault
      ensures poisoned <==> fault == DirectorySyncFault
      ensures disk.file == if ok || poisoned
                           then Some(Envelope(deployment, orders, Live(admissions, now), stranded))
                           else old(disk.file)
    {
      var renamed;
      ok, renamed := disk.Replace(Envelope(deployment, orders, Live(admissions, now), stranded), fault);
      clock := now;
      poisoned := renamed && !ok;
    }

    method Upsert(order: Managed, seen: int, now: int, fault: Fault) returns (r: Outcome)
      requires Valid() && clock <= seen <= now
      modifies this, disk
      ensures Valid() && clock == now
      ensures r == Poisoned <==> old(poisoned)
      ensures stranded == old(stranded)
      ensures r == WrongDeployment <==> !old(poisoned) && order.deployment != deployment
      ensures r == Done <==> !old(poisoned) && order.deployment == deployment && fault == NoFault
      ensures r == Done ==>
        orders == old(orders)[order.id := order] && disk.file.Some? && disk.file.value.orders == orders
      // the order's admission is remembered at least to its retention, everybody else's as it was
      ensures r == Done ==> disk.file.value.stranded == stranded
      ensures r == Done ==>
        && (forall id :: id != order.id ==> Entry(admissions, id, now) == old(Entry(admissions, id, now)))
        && (now >= 0 ==> Entry(admissions, order.id, now)
                         == Max(old(Entry(admissions, order.id, now)),
                                Max(now, RetentionUntil(order, seen).GetOr(now))))
      ensures r != Done && !poisoned ==> orders == old(orders) && disk.file == old(disk.file)
      ensures !poisoned && (r == Done || old(AdmissionsAgree())) ==> AdmissionsAgree()
      ensures poisoned <==> old(poisoned) || (order.deployment == deployment && fault == DirectorySyncFault)
      ensures old(poisoned) ==> disk.file == old(disk.file)
      ensures poisoned && !old(poisoned) ==> disk.file.Some? && disk.file.value.orders == old(orders)[order.id := order]
    {
      if poisoned { clock := now; return Poisoned; }
      Later(admissions, SavedAdmissions(disk.file), clock, now);
      if order.deployment != deployment { clock := now; return WrongDeployment; }
      var previous, previousAdmission := At(orders, order.id), At(admissions, order.id);
      PutBack(orders, order.id, order);
      RolledBack(admissions, order, seen, now);
      RememberedLater(admissions, order, seen, now);
      orders := orders[order.id := order];
      admissions := Remembered(admissions, order, seen);
      LiveTwice(admissions, now);
      var ok := Persist(now, fault);
      if ok { return Done; }
      if !poisoned {
        orders := Put(orders, order.id, previous);
        admissions := Put(admissions, order.id, previousAdmission);
      }
      r := Failed;
    }

    method Delete(id: nat, now: int, fault: Fault) returns (r: Outcome)
      requires Valid() && clock <= now
      modifies this, disk
      ensures Valid() && clock == now
      ensures r == Poisoned <==> old(poisoned)
      ensures stranded == old(stranded)
      ensures r == Done <==> !old(poisoned) && fault == NoFault
      ensures r == Done ==> orders == old(orders) - {id} && disk.file.Some? && disk.file.value.orders == orders
      ensures r == Done ==> disk.file.value.stranded == stranded
      ensures r != Done && !poisoned ==> orders == old(orders) && disk.file == old(disk.file)
      ensures !poisoned && (r == Done || old(AdmissionsAgree())) ==> AdmissionsAgree()
      ensures poisoned <==> old(poisoned) || fault == DirectorySyncFault
      ensures old(poisoned) ==> disk.file == old(disk.file)
      ensures poisoned && !old(poisoned) ==> disk.file.Some? && disk.file.value.orders == old(orders) - {id}
    {
      if poisoned { clock := now; return Poisoned; }
      Later(admissions, SavedAdmissions(disk.file), clock, now);
      LiveTwice(admissions, now);
      var previous := At(orders, id);
      orders := orders - {id};
      var ok := Persist(now, fault);
      if ok { return Done; }
      if !poisoned && previous.Some? { orders := orders[id := previous.value]; }
      r := Failed;
    }

    /** No rollback here: after a failed write memory may hold an entry the file lacks. */
    method RecordStrandedCredit(entry: Stranded, now: int, fault: Fault) returns (r: Outcome)
      requires Valid() && clock <= now
      modifies this, disk
      ensures Valid() && clock == now
      ensures r == Poisoned <==> old(poisoned)
      ensures orders == old(orders)
      ensures stranded == if old(poisoned) || KeyOf(entry) in old(stranded) then old(stranded)
                          else old(stranded)[KeyOf(entry) := entry]
      ensures poisoned <==> old(poisoned) || (KeyOf(entry) !in old(stranded) && fault == DirectorySyncFault)
      ensures r == Done <==> !old(poisoned) && (KeyOf(entry) in old(stranded) || fault == NoFault)
      ensures r == Done && KeyOf(entry) !in old(stranded) ==>
                disk.file.Some? && disk.file.value.stranded == stranded && stranded[KeyOf(entry)] == entry
      ensures disk.file == old(disk.file) || (disk.file.Some? && disk.file.value.orders == orders)
      ensures old(poisoned) || KeyOf(entry) in old(stranded) ==> disk.file == old(disk.file)
      ensures !poisoned && (old(AdmissionsAgree()) || (KeyOf(entry) !in old(stranded) && fault == NoFault)) ==>
                AdmissionsAgree()
    {
      if poisoned { clock := now; return Poisoned; }
      Later(admissions, SavedAdmissions(disk.file), clock, now);
      LiveTwice(admissions, now);
      if KeyOf(entry) in stranded { clock := now; return Done; }
      stranded := stranded[KeyOf(entry) := entry];
      var ok := Persist(now, fault);
      r := if ok then Done else Failed;
    }
  }

  // ---- what the rollback restores ----

  lemma RememberedEntries(admissions: map<nat, int>, order: Managed, now: int)
    requires now >= 0
    ensures forall id ::
      Entry(Remembered(admissions, order, now), id, now) ==
        (if id == order.id then Max(Entry(admissions, id, now), LiveUntil(order, now)) else Entry(admissions, id, now))
  {
  }

  /** An upsert remembers its own order at least to its retention, and nobody else's. */
  lemma RememberedLater(admissions: map<nat, int>, order: Managed, seen: int, now: int)
    requires seen <= now
    ensures var after := Remembered(admissions, order, seen);
      && (forall id :: id != order.id ==> Entry(after, id, now) == Entry(admissions, id, now))
      && (now >= 0 ==> Entry(after, order.id, now)
                       == Max(Entry(admissions, order.id, now), Max(now, RetentionUntil(order, seen).GetOr(now))))
  {
  }

  lemma SameEntries(a: map<nat, int>, b: map<nat, int>, now: int)
    ensures Live(a, now) == Live(b, now) <==> forall id :: Entry(a, id, now) == Entry(b, id, now)
  {
    if forall id :: Entry(a, id, now) == Entry(b, id, now) {
      forall id ensures id in Live(a, now) <==> id in Live(b, now) {
        assert Entry(a, id, now) == Entry(b, id, now);
      }
      forall id | id in Live(a, now) ensures Live(a, now)[id] == Live(b, now)[id] {
        assert Entry(a, id, now) == Entry(b, id, now);
      }
    }
    if Live(a, now) == Live(b, now) {
      forall id ensures Entry(a, id, now) == Entry(b, id, now) {
        assert id in Live(a, now) <==> id in Live(b, now);
      }
    }
  }

  lemma LiveTwice(admissions: map<nat, int>, now: int)
    ensures Live(Live(admissions, now), now) == Live(admissions, now)
  {
  }

  /** Agreement survives the passing of time. */
  lemma Later(a: map<nat, int>, b: map<nat, int>, then_: int, now: int)
    requires then_ <= now
    ensures Live(a, then_) == Live(b, then_) ==> Live(a, now) == Live(b, now)
  {
    if Live(a, then_) == Live(b, then_) {
      assert Live(a, now) == Live(Live(a, then_), now);
      assert Live(b, now) == Live(Live(b, then_), now);
    }
  }

  /** Restoring one entry undoes an upsert's admission update, except for entries that
      had expired anyway. */
  lemma RolledBack(before: map<nat, int>, order: Managed, seen: int, now: int)
    requires seen <= now
    ensures Live(Put(Remembered(before, order, seen), order.id, At(before, order.id)), now) == Live(before, now)
  {
  }

  /** Right after a restart an order with a signed cancellation whose listing is over
      keeps the admissions in agreement exactly when the file already holds an entry a
      whole grace period ahead: its retention is measured from the present. */
  lemma CancelledOrderOutlivesFile(saved: map<nat, int>, order: Managed, now: int)
    requires order.protocol.Some? && order.protocol.value.cancelProof.Some? && order.protocol.value.fillProof.None?
    requires order.protocol.value.orderExpiresAt <= now
    ensures LiveUntil(order, now) <= Entry(saved, order.id, now) <==>
            order.id in saved && saved[order.id] >= now + RETENTION_GRACE_S + 1
  {
  }

  // ---- the taker's state file ----

  const MAX_HISTORY_ENTRIES := 50
  const MAX_RETAINED_INTENTS := 8

  datatype TakerRecord = TakerRecord(orderId: nat, deployment: nat, account: nat, intents: nat, body: nat)

  type HistoryEntry = nat

  datatype TakerEnvelope = TakerEnvelope(deployment: nat, swaps: map<nat, TakerRecord>, history: seq<HistoryEntry>)

  /** The newest fifty entries, in their order. */
  function LastEntries(history: seq<HistoryEntry>): seq<HistoryEntry> {
    if |history| <= MAX_HISTORY_ENTRIES then history else history[|history| - MAX_HISTORY_ENTRIES..]
  }

  /** A new entry is the newest of at most fifty, in front of it the ones before it in
      their order, and only the oldest give way. */
  lemma NewestEntriesStay(history: seq<HistoryEntry>, entry: HistoryEntry)
    ensures var kept := LastEntries(history + [entry]);
      && |kept| == Min(|history| + 1, 50) && kept[|kept| - 1] == entry
      && kept[..|kept| - 1] == history[|history| + 1 - |kept|..]
  {
  }

  class TakerState {
    const disk: Disk<TakerEnvelope>
    const deployment: nat
    const account: Option<nat>
    var swaps: map<nat, TakerRecord>
    var settled: seq<HistoryEntry>
    var poisoned: bool

    /** Memory is exactly the file, or the object refuses to do anything more. */
    ghost predicate Valid() reads this, disk {
      || poisoned
      || (if disk.file.Some? then swaps == disk.file.value.swaps && settled == disk.file.value.history
          else swaps == map[] && settled == [])
    }

    constructor (disk: Disk<TakerEnvelope>, deployment: nat, account: Option<nat>)
      requires disk.file.Some? ==> disk.file.value.deployment == deployment
      requires disk.file.Some? ==> |disk.file.value.history| <= MAX_HISTORY_ENTRIES
      ensures Valid() && !poisoned && this.disk == disk && this.deployment == deployment && this.account == account
    {
      this.disk, this.deployment, this.account := disk, deployment, account;
      swaps, settled, poisoned := map[], [], false;
      if disk.file.Some? {
        swaps, settled := disk.file.value.swaps, LastEntries(disk.file.value.history);
      }
    }

    method Persist(fault: Fault) returns (ok: bool)
      requires !poisoned
      modifies this`poisoned, disk
      ensures ok <==> fault == NoFault
      ensures poisoned <==> fault == DirectorySyncFault
      ensures disk.file == if ok || poisoned then Some(TakerEnvelope(deployment, swaps, settled)) else old(disk.file)
    {
      var renamed;
      ok, renamed := disk.Replace(TakerEnvelope(deployment, swaps, settled), fault);
      poisoned := renamed && !ok;
    }

    method Upsert(record: TakerRecord, fault: Fault) returns (r: Outcome)
      requires Valid()
      modifies this, disk
      ensures Valid()
      ensures r == Poisoned <==> old(poisoned)
      ensures r == WrongDeployment <==> !old(poisoned) && record.deployment != deployment
      ensures r == Refused <==>
        !old(poisoned) && record.deployment == deployment
        && (record.intents > MAX_RETAINED_INTENTS || (account.Some? && record.account != account.value))
      ensures r == Done ==>
        swaps == old(swaps)[record.orderId := record] && settled == old(settled)
        && disk.file == Some(TakerEnvelope(deployment, swaps, settled))
      ensures r != Done && !poisoned ==>
        swaps == old(swaps) && settled == old(settled) && disk.file == old(disk.file)
      ensures r == Done || r == Failed ==> (r == Done <==> fault == NoFault)
      ensures poisoned <==> old(poisoned) || (r == Failed && fault == DirectorySyncFault)
      ensures poisoned ==>
        disk.file == if old(poisoned) then old(disk.file)
                     else Some(TakerEnvelope(deployment, old(swaps)[record.orderId := record], old(settled)))
    {
      if poisoned { return Poisoned; }
      if record.deployment != deployment { return WrongDeployment; }
      if record.intents > MAX_RETAINED_INTENTS { return Refused; }
      if account.Some? && record.account != account.value { return Refused; }
      var previous := At(swaps, record.orderId);
      PutBack(swaps, record.orderId, record);
      swaps := swaps[record.orderId := record];
      var ok := Persist(fault);
      if ok { return Done; }
      if !poisoned { swaps := Put(swaps, record.orderId, previous); }
      r := Failed;
    }

    /** Retire a record and keep its outcome, in one write. */
    method Settle(orderId: nat, entry: HistoryEntry, keepRecord: bool, fault: Fault) returns (r: Outcome)
      requires Valid()
      modifies this, disk
      ensures Valid()
      ensures r == Poisoned <==> old(poisoned)
      ensures r == Done ==>
        && swaps == (if keepRecord then old(swaps) else old(swaps) - {orderId})
        && settled == LastEntries(old(settled) + [entry])
        && disk.file == Some(TakerEnvelope(deployment, swaps, settled))
      ensures r != Done && !poisoned ==>
        swaps == old(swaps) && settled == old(settled) && disk.file == old(disk.file)
      ensures !old(poisoned) ==> (r == Done <==> fault == NoFault)
      ensures poisoned <==> old(poisoned) || fault == DirectorySyncFault
      ensures poisoned ==>
        disk.file == if old(poisoned) then old(disk.file)
                     else Some(TakerEnvelope(deployment, if keepRecord then old(swaps) else old(swaps) - {orderId},
                                             LastEntries(old(settled) + [entry])))
    {
      if poisoned { return Poisoned; }
      var previousSwaps, previousHistory := swaps, settled;
      settled := LastEntries(settled + [entry]);
      if !keepRecord { swaps := swaps - {orderId}; }
      var ok := Persist(fault);
      if ok { return Done; }
      if !poisoned { swaps, settled := previousSwaps, previousHistory; }
      r := Failed;
    }

    method Delete(orderId: nat, fault: Fault) returns (r: Outcome)
      requires Valid()
      modifies this, disk
      ensures Valid()
      ensures r == Poisoned <==> old(poisoned)
      ensures !poisoned && r == Done ==> swaps == old(swaps) - {orderId} && settled == old(settled)
      ensures r != Done && !poisoned ==> swaps == old(swaps) && settled == old(settled) && disk.file == old(disk.file)
      ensures !old(poisoned) ==> (r == Done <==> orderId !in old(swaps) || fault == NoFault)
      ensures orderId !in old(swaps) ==> swaps == old(swaps) && disk.file == old(disk.file)
      ensures poisoned <==> old(poisoned) || (orderId in old(swaps) && fault == DirectorySyncFault)
      ensures poisoned ==>
        disk.file == if old(poisoned) then old(disk.file)
                     else Some(TakerEnvelope(deployment, old(swaps) - {orderId}, old(settled)))
    {
      if poisoned { return Poisoned; }
      if orderId !in swaps { return Done; }
      var previous := swaps[orderId];
      swaps := swaps - {orderId};
      var ok := Persist(fault);
      if ok { return Done; }
      if !poisoned { swaps := swaps[orderId := previous]; }
      r := Failed;
    }
  }

  // ---- whole sessions ----

  datatype MakerOp = UpsertOp(order: Managed) | DeleteOp(id: nat) | StrandOp(entry: Stranded)

  datatype Request = Request(op: MakerOp, seen: int, now: int, fault: Fault)

  ghost predicate Ordered(rs: seq<Request>, from: int) {
    && (forall i :: 0 <= i < |rs| ==> from <= rs[i].seen <= rs[i].now)
    && (forall i, j :: 0 <= i < j < |rs| ==> rs[i].now <= rs[j].seen)
  }

  predicate Renames(fault: Fault) { fault == NoFault || fault == DirectorySyncFault }

  /** What a session must leave: the file's orders, the stranded keys known in memory,
      whether the object is dead, and whether any write went all the way. */
  datatype Book = Book(orders: map<nat, Managed>, keys: set<LedgerKey>, dead: bool, wrote: bool)

  /** Every request whose rename happened counts, and none after the first that poisoned
      the object. A stranded entry is remembered even when its write failed. */
  function AfterRequest(b: Book, deployment: nat, r: Request): Book {
    if b.dead then b else
      var dead, wrote := r.fault == DirectorySyncFault, b.wrote || r.fault == NoFault;
      match r.op
      case UpsertOp(o) =>
        if o.deployment != deployment then b
        else b.(orders := if Renames(r.fault) then b.orders[o.id := o] else b.orders, dead := dead, wrote := wrote)
      case DeleteOp(id) =>
        b.(orders := if Renames(r.fault) then b.orders - {id} else b.orders, dead := dead, wrote := wrote)
      case StrandOp(entry) =>
        if KeyOf(entry) in b.keys then b
        else b.(keys := b.keys + {KeyOf(entry)}, dead := dead, wrote := wrote)
  }

  function Expected(start: Book, deployment: nat, rs: seq<Request>): Book {
    if rs == [] then start else AfterRequest(Expected(start, deployment, rs[..|rs| - 1]), deployment, rs[|rs| - 1])
  }

  function FileOrders(file: Option<Envelope>): map<nat, Managed> {
    if file.Some? then file.value.orders else map[]
  }

  /** The object after some requests: what the file holds, and when memory agrees. */
  ghost predicate Tells(state: MakerState, b: Book, agreed: bool)
    reads state, state.disk
  {
    && state.Valid() && state.poisoned == b.dead && state.stranded.Keys == b.keys
    && FileOrders(state.disk.file) == b.orders
    && (!state.poisoned ==> state.orders == b.orders)
    && (!state.poisoned && (agreed || b.wrote) ==> state.AdmissionsAgree())
  }

  method Serve(state: MakerState, r: Request, ghost b: Book, ghost agreed: bool)
    requires Tells(state, b, agreed) && state.clock <= r.seen <= r.now
    modifies state, state.disk
    ensures Tells(state, AfterRequest(b, state.deployment, r), agreed) && state.clock == r.now
  {
    var o;
    match r.op {
      case UpsertOp(order) => o := state.Upsert(order, r.seen, r.now, r.fault);
      case DeleteOp(id) => o := state.Delete(id, r.now, r.fault);
      case StrandOp(entry) => o := state.RecordStrandedCredit(entry, r.now, r.fault);
    }
  }

  /** Any sequence of operations, with a fault injected anywhere: the file is what the
      renamed writes make it; unless poisoned, orders in memory equal it, and so do the
      live admissions if they did at the start or any write has gone all the way. */
  method Session(state: MakerState, rs: seq<Request>)
    requires state.Valid() && !state.poisoned && Ordered(rs, state.clock)
    modifies state, state.disk
    ensures Tells(state,
                  Expected(Book(old(state.orders), old(state.stranded).Keys, false, false), state.deployment, rs),
                  old(state.AdmissionsAgree()))
  {
    ghost var start, agreed := Book(state.orders, state.stranded.Keys, false, false), state.AdmissionsAgree();
    for n := 0 to |rs|
      invariant forall i :: n <= i < |rs| ==> state.clock <= rs[i].seen
      invariant Tells(state, Expected(start, state.deployment, rs[..n]), agreed)
    {
      assert rs[..n + 1][..n] == rs[..n];
      Serve(state, rs[n], Expected(start, state.deployment, rs[..n]), agreed);
    }
    assert rs[..|rs|] == rs;
  }

  datatype TakerOp =
    | TakerUpsert(record: TakerRecord)
    | TakerSettle(orderId: nat, entry: HistoryEntry, keepRecord: bool)
    | TakerDelete(orderId: nat)

  datatype TakerRequest = TakerRequest(op: TakerOp, fault: Fault)

  datatype TakerBook = TakerBook(swaps: map<nat, TakerRecord>, history: seq<HistoryEntry>, dead: bool)

  predicate Accepts(deployment: nat, account: Option<nat>, record: TakerRecord) {
    && record.deployment == deployment && record.intents <= MAX_RETAINED_INTENTS
    && (account.Some? ==> record.account == account.value)
  }

  function AfterTakerRequest(b: TakerBook, deployment: nat, account: Option<nat>, r: TakerRequest): TakerBook {
    if b.dead || !Renames(r.fault) then b else
      var dead := r.fault == DirectorySyncFault;
      match r.op
      case TakerUpsert(record) =>
        if !Accepts(deployment, account, record) then b
        else b.(swaps := b.swaps[record.orderId := record], dead := dead)
      case TakerSettle(orderId, entry, keepRecord) =>
        TakerBook(if keepRecord then b.swaps else b.swaps - {orderId}, LastEntries(b.history + [entry]), dead)
      case TakerDelete(orderId) =>
        if orderId !in b.swaps then b else b.(swaps := b.swaps - {orderId}, dead := dead)
  }

  function TakerExpected(start: TakerBook, deployment: nat, account: Option<nat>, rs: seq<TakerRequest>): TakerBook {
    if rs == [] then start
    else AfterTakerRequest(TakerExpected(start, deployment, account, rs[..|rs| - 1]), deployment, account, rs[|rs| - 1])
  }

  ghost predicate TakerTells(state: TakerState, b: TakerBook)
    reads state, state.disk
  {
    && state.Valid() && state.poisoned == b.dead
    && (if state.disk.file.Some? then state.disk.file.value.swaps else map[]) == b.swaps
    && (if state.disk.file.Some? then state.disk.file.value.history else []) == b.history
    && (!state.poisoned ==> state.swaps == b.swaps && state.settled == b.history)
  }

  method TakerServe(state: TakerState, r: TakerRequest, ghost b: TakerBook)
    requires TakerTells(state, b)
    modifies state, state.disk
    ensures TakerTells(state, AfterTakerRequest(b, state.deployment, state.account, r))
  {
    var o;
    match r.op {
      case TakerUpsert(record) => o := state.Upsert(record, r.fault);
      case TakerSettle(orderId, entry, keepRecord) => o := state.Settle(orderId, entry, keepRecord, r.fault);
      case TakerDelete(orderId) => o := state.Delete(orderId, r.fault);
    }
  }

  /** The taker's file after any sequence of operations: swaps and history are what the
      renamed writes make them, and memory equals the file unless poisoned. */
  method TakerSession(state: TakerState, rs: seq<TakerRequest>)
    requires state.Valid() && !state.poisoned
    modifies state, state.disk
    ensures TakerTells(state, TakerExpected(TakerBook(old(state.swaps), old(state.settled), false),
                                            state.deployment, state.account, rs))
  {
    ghost var start := TakerBook(state.swaps, state.settled, false);
    for n := 0 to |rs|
      invariant TakerTells(state, TakerExpected(start, state.deployment, state.account, rs[..n]))
    {
      assert rs[..n + 1][..n] == rs[..n];
      TakerServe(state, rs[n], TakerExpected(start, state.deployment, state.account, rs[..n]));
    }
    assert rs[..|rs|] == rs;
  }
}
