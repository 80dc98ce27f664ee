/** The fixed-window hit store and the batch surcharge that charges it a second time
    (src/api/rate_limit_store.js, src/api/rate_limit_tiers.js). Times are what the clock answers, in milliseconds. */
module RateLimit {
  import opened JsValues

  datatype Entry = Entry(hits: nat, resetAt: real)

  type Table = map<string, Entry>

  // ---------------------------------------------------- the unswept ledger

  predicate Live(t: Table, key: string, now: real) { key in t && t[key].resetAt > now }

  /** Math.max(0, Math.floor(hits)) */
  function Tokens(hits: real): (n: nat)
    ensures hits >= 0.0 ==> n as real <= hits < n as real + 1.0
    ensures hits < 0.0 ==> n == 0
  {
    if hits.Floor < 0 then 0 else hits.Floor
  }

  /** The key's window after a charge: a fresh one when none is live. */
  function Charged(t: Table, key: string, tokens: nat, now: real, windowMs: real): Entry {
    var e := if Live(t, key, now) then t[key] else Entry(0, now + windowMs);
    e.(hits := e.hits + tokens)
  }

  /** A ledger keeps every key's last window for ever. */
  function LedgerCharge(t: Table, key: string, tokens: nat, now: real, windowMs: real): Table {
    t[key := Charged(t, key, tokens, now, windowMs)]
  }

  function LedgerGet(t: Table, key: string, now: real): Option<Entry> {
    if Live(t, key, now) then Some(t[key]) else None
  }

  function LedgerDecrement(t: Table, key: string, now: real): Table {
    if Live(t, key, now) && t[key].hits > 0 then t[key := t[key].(hits := t[key].hits - 1)] else t
  }

  // ---------------------------------------------------------------- the store

  class FixedWindowStore {
    var windowMs: real
    var windows: Table
    var nextSweepAt: real

    /** The ledger this store stands for, and the last time the clock was read. */
    ghost var ledger: Table
    ghost var clock: real

    /** Only expired windows are missing. */
    ghost predicate Valid()
      reads this
    {
      && windowMs > 0.0
      && (forall k :: k in windows ==> k in ledger && ledger[k] == windows[k])
      && (forall k :: Live(ledger, k, clock) ==> k in windows)
    }

    constructor ()
      ensures Valid() && ledger == map[] && windowMs == 60000.0
    {
      windowMs, windows, nextSweepAt := 60000.0, map[], 0.0;
      ledger, clock := map[], 0.0;
    }

    method Init(options: Option<Num>)
      requires Valid()
      modifies this`windowMs
      ensures Valid()
      ensures windowMs == match options case Some(Fin(w)) => (if w > 0.0 then w else old(windowMs)) case _ => old(windowMs)
    {
      if options.Some? && options.value.Fin? && options.value.value > 0.0 { windowMs := options.value.value; }
    }

    method CurrentWindow(key: string, now: real) returns (entry: Option<Entry>)
      requires Valid() && clock <= now
      modifies this`windows, this`clock
      ensures Valid() && clock == now
      ensures entry == LedgerGet(ledger, key, now) && (entry.Some? ==> key in windows)
    {
      clock := now;
      if key !in windows { return None; }
      if windows[key].resetAt <= now {
        windows := windows - {key};
        return None;
      }
      return Some(windows[key]);
    }

    method Sweep(now: real)
      requires Valid() && clock <= now
      modifies this`windows, this`nextSweepAt, this`clock
      ensures Valid() && clock == now
    {
      clock := now;
      if now < nextSweepAt { return; }
      var todo := windows.Keys;
      while todo != {}
        invariant Valid() && clock == now && todo <= windows.Keys
        decreases |todo|
      {
        var key :| key in todo;
        todo := todo - {key};
        if windows[key].resetAt <= now { windows := windows - {key}; }
      }
      nextSweepAt := now + windowMs;
    }

    method IncrementBy(key: string, hits: real, now: real) returns (total: Entry)
      requires Valid() && clock <= now
      modifies this`windows, this`nextSweepAt, this`clock, this`ledger
      ensures Valid() && clock == now
      ensures ledger == LedgerCharge(old(ledger), key, Tokens(hits), now, windowMs)
      ensures total == Charged(old(ledger), key, Tokens(hits), now, windowMs)
    {
      Sweep(now);
      var found := CurrentWindow(key, now);
      var entry := if found.Some? then found.value else Entry(0, now + windowMs);
      total := entry.(hits := entry.hits + Tokens(hits));
      windows := windows[key := total];
      ledger := LedgerCharge(ledger, key, Tokens(hits), now, windowMs);
    }

    method Increment(key: string, now: real) returns (total: Entry)
      requires Valid() && clock <= now
      modifies this`windows, this`nextSweepAt, this`clock, this`ledger
      ensures Valid() && clock == now
      ensures ledger == LedgerCharge(old(ledger), key, 1, now, windowMs)
      ensures total == Charged(old(ledger), key, 1, now, windowMs)
    {
      total := IncrementBy(key, 1.0, now);
    }

    method Get(key: string, now: real) returns (entry: Option<Entry>)
      requires Valid() && clock <= now
      modifies this`windows, this`clock
      ensures Valid() && clock == now && entry == LedgerGet(ledger, key, now)
    {
      entry := CurrentWindow(key, now);
    }

    method Decrement(key: string, now: real)
      requires Valid() && clock <= now
      modifies this`windows, this`clock, this`ledger
      ensures Valid() && clock == now && ledger == LedgerDecrement(old(ledger), key, now)
    {
      var entry := CurrentWindow(key, now);
      if entry.Some? && entry.value.hits > 0 {
        windows := windows[key := entry.value.(hits := entry.value.hits - 1)];
      }
      ledger := LedgerDecrement(ledger, key, now);
    }

    method ResetKey(key: string)
      requires Valid()
      modifies this`windows, this`ledger
      ensures Valid() && ledger == old(ledger) - {key}
    {
      windows, ledger := windows - {key}, ledger - {key};
    }

    method ResetAll()
      requires Valid()
      modifies this`windows, this`ledger
      ensures Valid() && ledger == map[]
    {
      windows, ledger := map[], map[];
    }
  }

  // --------------------------------------------------------------- the tiers

  /** Tokens a request costs; `batch` is the length of its body when that is an array. */
  function BatchCost(batch: Option<nat>): (n: nat)
    ensures n >= 1
  {
    if batch.Some? && batch.value > 1 then batch.value else 1
  }

  /** Charges the rest of a batch; true means the request was answered by the limit handler. */
  method BatchSurcharge(store: FixedWindowStore, batch: Option<nat>, skip: bool, key: string, limit: nat, now: real) returns (refused: bool)
    requires store.Valid() && store.clock <= now
    modifies store
    ensures store.Valid() && store.windowMs == old(store.windowMs)
    ensures batch.None? || batch.value <= 1 || skip ==> !refused && store.ledger == old(store.ledger)
    ensures batch.Some? && batch.value > 1 && !skip ==>
              var s := Charge(key, batch.value - 1, now);
              && store.ledger == AfterCharge(old(store.ledger), s, store.windowMs)
              && (refused <==> store.ledger[key].hits > limit)
  {
    var extra := BatchCost(batch) - 1;
    if extra <= 0 || skip { return false; }
    var total := store.IncrementBy(key, extra as real, now);
    assert Tokens(extra as real) == extra;
    return total.hits > limit;
  }

  // ------------------------------------------------------------------ runs

  /** One charge of the shared store: a limiter's token, or a surcharge. */
  datatype Charge = Charge(key: string, tokens: nat, now: real)

  function AfterCharge(t: Table, s: Charge, windowMs: real): Table { LedgerCharge(t, s.key, s.tokens, s.now, windowMs) }

  predicate Passes(t: Table, s: Charge, windowMs: real, limit: nat) {
    Charged(t, s.key, s.tokens, s.now, windowMs).hits <= limit
  }

  /** Charges come at times that never go back. */
  predicate InTimeOrder(steps: seq<Charge>, since: real) {
    steps == [] || (since <= steps[0].now && InTimeOrder(steps[1..], steps[0].now))
  }

  /** The ledger after a run of charges. */
  function LedgerAfter(steps: seq<Charge>, windowMs: real): Table {
    if steps == [] then map[]
    else AfterCharge(LedgerAfter(steps[..|steps| - 1], windowMs), steps[|steps| - 1], windowMs)
  }

  /** The tokens charged to the key. */
  function TokensFor(steps: seq<Charge>, key: string): nat {
    if steps == [] then 0
    else TokensFor(steps[..|steps| - 1], key) + if steps[|steps| - 1].key == key then steps[|steps| - 1].tokens else 0
  }

  /** The o-th charge is the key's, and no window of the key covers it. */
  ghost predicate Opens(steps: seq<Charge>, o: nat, windowMs: real, key: string) {
    && o < |steps| && steps[o].key == key
    && (key in LedgerAfter(steps[..o], windowMs) ==> LedgerAfter(steps[..o], windowMs)[key].resetAt <= steps[o].now)
  }

  /** The key's charges from the o-th on all fall in the window that one opens, and entry counts them. */
  ghost predicate CountsFrom(steps: seq<Charge>, o: nat, windowMs: real, key: string, entry: Entry)
    requires o < |steps|
  {
    && entry == Entry(TokensFor(steps[o..], key), steps[o].now + windowMs)
    && forall i :: o <= i < |steps| && steps[i].key == key ==> steps[i].now < steps[o].now + windowMs
  }

  /** What the ledger holds after any run of charges: for each key that was charged, the window its last uncovered
      charge opened, for windowMs, with every token charged since. Reads see it until it ends, and not after. */
  lemma {:induction false} LedgerExactly(steps: seq<Charge>, windowMs: real, key: string, now: real)
    requires windowMs > 0.0
    ensures var t := LedgerAfter(steps, windowMs);
            && (key in t <==> exists i :: 0 <= i < |steps| && steps[i].key == key)
            && (key in t ==> exists o: nat :: Opens(steps, o, windowMs, key) && CountsFrom(steps, o, windowMs, key, t[key]))
            && LedgerGet(t, key, now) == if key in t && now < t[key].resetAt then Some(t[key]) else None
  {
    if steps != [] {
      var n := |steps| - 1;
      var before, s := steps[..n], steps[n];
      LedgerExactly(before, windowMs, key, now);
      assert forall i :: 0 <= i < |steps| ==> steps[i] == if i < n then before[i] else s;
      var t := LedgerAfter(before, windowMs);
      if s.key == key && (key !in t || t[key].resetAt <= s.now) {
        OpensLast(steps, windowMs, key);
      } else if key in t {
        var o: nat :| Opens(before, o, windowMs, key) && CountsFrom(before, o, windowMs, key, t[key]);
        CountsOneMore(before, s, o, windowMs, key, t[key]);
        assert before + [s] == steps;
      }
    }
  }

  lemma OpensLast(steps: seq<Charge>, windowMs: real, key: string)
    requires steps != [] && windowMs > 0.0 && Opens(steps, |steps| - 1, windowMs, key)
    ensures CountsFrom(steps, |steps| - 1, windowMs, key, LedgerAfter(steps, windowMs)[key])
  {
    var s := steps[|steps| - 1];
    assert steps[|steps| - 1..] == [s] && TokensFor([s][..0], key) == 0;
  }

  lemma CountsOneMore(before: seq<Charge>, s: Charge, o: nat, windowMs: real, key: string, entry: Entry)
    requires Opens(before, o, windowMs, key) && CountsFrom(before, o, windowMs, key, entry)
    requires s.key == key ==> s.now < entry.resetAt
    ensures Opens(before + [s], o, windowMs, key)
    ensures CountsFrom(before + [s], o, windowMs, key, if s.key == key then entry.(hits := entry.hits + s.tokens) else entry)
  {
    var steps := before + [s];
    assert steps[..o] == before[..o];
    assert steps[o..] == before[o..] + [s] && steps[o..][..|before| - o] == before[o..];
  }

  /** A refund takes back one token charged in the key's live window, and otherwise nothing; other keys never move. */
  lemma RefundUndoesOne(t: Table, key: string, tokens: nat, now: real, later: real, windowMs: real)
    requires windowMs > 0.0 && now <= later
    ensures later < LedgerCharge(t, key, tokens + 1, now, windowMs)[key].resetAt ==>
              LedgerDecrement(LedgerCharge(t, key, tokens + 1, now, windowMs), key, later) == LedgerCharge(t, key, tokens, now, windowMs)
    ensures later >= LedgerCharge(t, key, tokens + 1, now, windowMs)[key].resetAt ==>
              LedgerDecrement(LedgerCharge(t, key, tokens + 1, now, windowMs), key, later) == LedgerCharge(t, key, tokens + 1, now, windowMs)
    ensures key !in t || t[key].hits == 0 ==> LedgerDecrement(t, key, later) == t
  {
    var charged, less := LedgerCharge(t, key, tokens + 1, now, windowMs), LedgerCharge(t, key, tokens, now, windowMs);
    if later < charged[key].resetAt {
      forall k | k in less ensures LedgerDecrement(charged, key, later)[k] == less[k] {
      }
      assert LedgerDecrement(charged, key, later) == less;
    }
  }

  /** The tokens of the steps that fell in the key's window ending at resetAt and were not refused. */
  function Granted(steps: seq<Charge>, t: Table, windowMs: real, limit: nat, key: string, resetAt: real): nat {
    if steps == [] then 0
    else
      var s := steps[0];
      (if s.key == key && Charged(t, key, s.tokens, s.now, windowMs).resetAt == resetAt && Passes(t, s, windowMs, limit) then s.tokens else 0)
      + Granted(steps[1..], AfterCharge(t, s, windowMs), windowMs, limit, key, resetAt)
  }

  /** granted tokens so far fit the window: they are counted in it while it is the key's last one, and none have been
      granted before it opens. */
  ghost predicate Fits(t: Table, key: string, resetAt: real, granted: nat, limit: nat) {
    && granted <= limit
    && (key !in t || t[key].resetAt < resetAt ==> granted == 0)
    && (key in t && t[key].resetAt == resetAt ==> granted <= t[key].hits)
  }

  lemma {:induction false} GrantedFits(steps: seq<Charge>, t: Table, since: real, windowMs: real, limit: nat, key: string, resetAt: real, granted: nat)
    requires windowMs > 0.0 && InTimeOrder(steps, since) && Fits(t, key, resetAt, granted, limit)
    ensures granted + Granted(steps, t, windowMs, limit, key, resetAt) <= limit
    decreases |steps|
  {
    if steps != [] {
      var s := steps[0];
      var here := if s.key == key && Charged(t, key, s.tokens, s.now, windowMs).resetAt == resetAt && Passes(t, s, windowMs, limit) then s.tokens else 0;
      GrantedFits(steps[1..], AfterCharge(t, s, windowMs), s.now, windowMs, limit, key, resetAt, granted + here);
    }
  }

  /** Under every interleaving of limiter charges and surcharges, of any keys, the tokens granted within one key's
      window never exceed the limit. */
  lemma WindowNeverOvergrants(steps: seq<Charge>, since: real, windowMs: real, limit: nat, key: string, resetAt: real)
    requires windowMs > 0.0 && InTimeOrder(steps, since)
    ensures Granted(steps, map[], windowMs, limit, key, resetAt) <= limit
  {
    GrantedFits(steps, map[], since, windowMs, limit, key, resetAt, 0);
  }

  /** A refused surcharge is final for its window: until it ends, nothing more is granted to the key. */
  lemma {:induction false} RefusalIsFinal(steps: seq<Charge>, t: Table, windowMs: real, limit: nat, key: string)
    requires windowMs > 0.0 && key in t && t[key].hits > limit
    requires forall i :: 0 <= i < |steps| ==> steps[i].now < t[key].resetAt
    ensures Granted(steps, t, windowMs, limit, key, t[key].resetAt) == 0
    decreases |steps|
  {
    if steps != [] {
      var u := AfterCharge(t, steps[0], windowMs);
      assert u[key].resetAt == t[key].resetAt && u[key].hits > limit;
      RefusalIsFinal(steps[1..], u, windowMs, limit, key);
    }
  }
}
