/** The hub-local oracle round reward of src/anchor/reward_tracker.js: who is credited, and how the
    fixed budget is split through two roundings. */
module RewardSplit {
  import opened JsValues
  import opened Decimal
  import opened Ordering
  import opened Pubkeys

  // ------------------------------------------------------------ the split

  function PerValidator(budget: real, n: nat): real {
    ToFixed(BcMulFloor(BcDiv(budget, n as real, Eighteen), 1.0, Eight), Eight)
  }

  /** k satoshis as a decimal. */
  function Satoshis(k: int): real { OfUnits(k, Eight) }

  lemma ScaledQuotient(k: nat, n: nat, q: nat, r: nat, y: real)
    requires n > 0 && k == q * n + r && r < n
    requires y * n as real == k as real * 1e10
    ensures (y - q as real * 1e10) * n as real == r as real * 1e10
  {
    assert k as real == q as real * n as real + r as real;
  }

  lemma CancelLess(a: real, b: real, x: real, ax: real, bx: real)
    requires x > 0.0 && ax == a * x && bx == b * x
    ensures a < b <==> ax < bx
  {
    assert (b - a) * x == bx - ax;
    if a < b { assert (b - a) * x > 0.0; }
    if a >= b { assert (a - b) * x >= 0.0; }
  }

  /** Rounding f in [0, 10^10) to an integer reaches 10^10 exactly when f comes within a half of it. */
  lemma FractionRounds(k: nat, n: nat, q: nat, r: nat, y: real)
    requires n > 0 && k == q * n + r && r < n
    requires y * n as real == k as real * 1e10
    ensures Nearest(y) >= q * 10_000_000_000
    ensures Nearest(y) < (q + 1) * 10_000_000_000 <==> 20_000_000_000 * (n - r) > n
    ensures Nearest(y) <= (q + 1) * 10_000_000_000
  {
    ScaledQuotient(k, n, q, r, y);
    var f := y - q as real * 1e10;
    CancelLess(f, 0.0, n as real, r as real * 1e10, 0.0);
    CancelLess(f, 1e10, n as real, r as real * 1e10, 1e10 * n as real);
    CancelLess(f, 1e10 - 0.5, n as real, r as real * 1e10, (1e10 - 0.5) * n as real);
    assert f < 1e10 - 0.5 <==> 20_000_000_000 * (n - r) > n;
    assert Nearest(y) == (f + 0.5 + (q * 10_000_000_000) as real).Floor;
  }

  /** Double rounding: dividing half-up at 18 decimals and flooring at 8 gives the integer quotient
      of satoshis exactly when the remainder is not within half an 18th-decimal unit of a whole share. */
  lemma SplitIsIntegerQuotient(k: nat, n: nat)
    requires n > 0
    ensures PerValidator(Satoshis(k), n) == Satoshis(k / n) <==> 20_000_000_000 * (n - k % n) > n
    ensures PerValidator(Satoshis(k), n) == Satoshis(k / n) || PerValidator(Satoshis(k), n) == Satoshis(k / n + 1)
  {
    var q, r, b := k / n, k % n, Satoshis(k);
    Quotient(b / n as real, b, n as real);
    FractionRounds(k, n, q, r, Units(b / n as real, Eighteen));
    var m := Nearest(Units(b / n as real, Eighteen));
    assert BcDiv(b, n as real, Eighteen) == OfUnits(m, Eighteen);
    FloorToSatoshis(m, if m < (q + 1) * 10_000_000_000 then q else q + 1);
  }

  lemma FloorToSatoshis(m: int, q: int)
    requires q * 10_000_000_000 <= m < (q + 1) * 10_000_000_000
    ensures ToFixed(BcMulFloor(OfUnits(m, Eighteen), 1.0, Eight), Eight) == Satoshis(q)
  {
    var x := OfUnits(m, Eighteen);
    assert Units(x * 1.0, Eight) == m as real / 1e10;
    assert Units(x * 1.0, Eight).Floor == q;
    assert Units(Satoshis(q), Eight) == q as real;
    ToFixedExact(Satoshis(q), Eight);
  }

  /** The share of any budget, in whole satoshis: the quotient in satoshis, raised by half an 18th-decimal unit, floored. */
  lemma ShareExactly(budget: real, n: nat, q: int)
    requires n > 0 && budget >= 0.0
    ensures PerValidator(budget, n) == Satoshis(q) <==>
            (q * n) as real <= budget * 1e8 + n as real * 5e-11 < ((q + 1) * n) as real
  {
    var x := budget / n as real;
    QuotientNonNegative(x, budget, n as real);
    WholeSatoshis(Nearest(Units(x, Eighteen)), q);
    ScaledUnits(x, n, budget, q);
    ScaledUnits(x, n, budget, q + 1);
  }

  lemma QuotientNonNegative(x: real, a: real, b: real)
    requires a >= 0.0 && b > 0.0 && x == a / b
    ensures x >= 0.0 && x * b == a
  {
    Quotient(x, a, b);
  }

  lemma WholeSatoshis(m: int, q: int)
    ensures ToFixed(BcMulFloor(OfUnits(m, Eighteen), 1.0, Eight), Eight) == Satoshis(q) <==>
            q * 10_000_000_000 <= m < (q + 1) * 10_000_000_000
  {
    var whole := m / 10_000_000_000;
    FloorToSatoshis(m, whole);
    SatoshisInjective(whole, q);
  }

  lemma SatoshisInjective(a: int, b: int)
    ensures Satoshis(a) == Satoshis(b) <==> a == b
  {
  }

  lemma ScaledUnits(x: real, n: nat, budget: real, q: int)
    requires n > 0 && x * n as real == budget && x >= 0.0
    ensures q * 10_000_000_000 <= Nearest(Units(x, Eighteen)) <==> (q * n) as real <= budget * 1e8 + n as real * 5e-11
  {
    var y := Units(x, Eighteen);
    assert q * 10_000_000_000 <= Nearest(y) <==> q as real * 1e10 <= y + 0.5;
    CancelLess(x * 1e8 + 5e-11, q as real, n as real, (x * 1e8 + 5e-11) * n as real, q as real * n as real);
    assert (x * 1e8 + 5e-11) * n as real == budget * 1e8 + n as real * 5e-11;
    assert (q * n) as real == q as real * n as real;
  }

  lemma SplitExact(k: nat, n: nat)
    requires 0 < n < 20_000_000_000
    ensures PerValidator(Satoshis(k), n) == Satoshis(k / n)
  {
    SplitIsIntegerQuotient(k, n);
  }

  /** For any realistic number of participants the shares never exceed the budget and strand less than
      one satoshi per participant. */
  lemma SharesFitBudget(k: nat, n: nat, share: real)
    requires 0 < n < 20_000_000_000 && share == PerValidator(Satoshis(k), n)
    ensures share == Satoshis(k / n)
    ensures n as real * share <= Satoshis(k)
    ensures Satoshis(k) - n as real * share < n as real * 1e-8
  {
    SplitExact(k, n);
    DivMod(k, n, k / n, k % n);
    ShareTotals(k, n, k / n, k % n, share);
  }

  lemma DivMod(k: nat, n: nat, q: nat, r: nat)
    requires n > 0 && q == k / n && r == k % n
    ensures k == q * n + r && r < n
  {
  }

  lemma ShareTotals(k: nat, n: nat, q: nat, r: nat, share: real)
    requires k == q * n + r && r < n && share == Satoshis(q)
    ensures n as real * share <= Satoshis(k)
    ensures Satoshis(k) - n as real * share < n as real * 1e-8
  {
    assert n as real * share == (q * n) as real / 1e8;
  }

  /** At n = 2*10^10 the property really stops: one satoshi short of a full share still rounds up to it,
      and the shares then exceed the budget. */
  lemma SplitFailsAtTwentyBillion()
    ensures PerValidator(Satoshis(19_999_999_999), 20_000_000_000) == Satoshis(1)
    ensures 20_000_000_000.0 * Satoshis(1) > Satoshis(19_999_999_999)
  {
    SplitIsIntegerQuotient(19_999_999_999, 20_000_000_000);
  }

  // ------------------------------------------------------ the participants

  /** Strings that are 64 hex digits, lower-cased; None stands for a participant that is not a string. */
  function Spelled(participants: seq<Option<string>>): seq<string> {
    if participants == [] then []
    else (if participants[0].Some? && IsPubkey(participants[0].value) then [Lower(participants[0].value)] else [])
         + Spelled(participants[1..])
  }

  /** The canonical set: lower-cased, deduplicated, sorted. */
  function Canonical(participants: seq<Option<string>>): seq<string> {
    SortedSet(StrLe, Spelled(participants))
  }

  ghost predicate Names(participants: seq<Option<string>>, key: string) {
    exists p :: p in participants && p.Some? && IsPubkey(p.value) && Lower(p.value) == key
  }

  lemma {:induction false} SpelledMembers(participants: seq<Option<string>>, key: string)
    ensures key in Spelled(participants) <==> Names(participants, key)
  {
    if participants != [] {
      SpelledMembers(participants[1..], key);
      var head, rest := participants[0], Spelled(participants[1..]);
      assert forall p :: p in participants <==> p == head || p in participants[1..];
      if head.Some? && IsPubkey(head.value) {
        assert Spelled(participants) == [Lower(head.value)] + rest;
      }
    }
  }

  /** Who is credited: each 64-digit hex string some participant is, in lower case, once, in ascending order. */
  lemma CanonicalExactly(participants: seq<Option<string>>, keys: seq<string>)
    ensures Canonical(participants) == keys <==>
              && (forall i, j :: 0 <= i < j < |keys| ==> StrLe(keys[i], keys[j]) && keys[i] != keys[j])
              && forall key :: key in keys <==> exists p :: p in participants && p.Some? && SpelledLower(p.value, key)
  {
    StrLeIsTotalOrder();
    SortedSetExactly(StrLe, Spelled(participants), keys);
    forall key ensures key in Spelled(participants) <==> exists p :: p in participants && p.Some? && SpelledLower(p.value, key) {
      SpelledMembers(participants, key);
      forall s ensures IsPubkey(s) && Lower(s) == key <==> SpelledLower(s, key) { LowerExactly(s, key); }
    }
  }

  /** s is 64 hex digits, and key is s with A-F turned into a-f. */
  ghost predicate SpelledLower(s: string, key: string) {
    && |s| == 64 && |key| == 64
    && forall i :: 0 <= i < 64 ==> key[i] in "0123456789abcdef" && (s[i] == key[i] || ('A' <= s[i] <= 'F' && key[i] as int == s[i] as int + 32))
  }

  lemma LowerExactly(s: string, key: string)
    ensures IsPubkey(s) && Lower(s) == key <==> SpelledLower(s, key)
  {
    if |s| == 64 && |key| == 64 {
      forall i | 0 <= i < 64
        ensures IsHex(s[i]) && LowerChar(s[i]) == key[i] <==>
                key[i] in "0123456789abcdef" && (s[i] == key[i] || ('A' <= s[i] <= 'F' && key[i] as int == s[i] as int + 32)) {
        LowerDigit(s[i], key[i]);
      }
      if IsPubkey(s) && Lower(s) == key {
        assert forall i :: 0 <= i < 64 ==> IsHex(s[i]) && LowerChar(s[i]) == key[i];
      }
      if SpelledLower(s, key) {
        assert forall i :: 0 <= i < 64 ==> IsHex(s[i]) && LowerChar(s[i]) == key[i];
        assert Lower(s) == key;
      }
    }
  }

  lemma LowerDigit(c: char, d: char)
    ensures IsHex(c) && LowerChar(c) == d <==>
            d in "0123456789abcdef" && (c == d || ('A' <= c <= 'F' && d as int == c as int + 32))
  {
    assert d in "0123456789abcdef" <==> '0' <= d <= '9' || 'a' <= d <= 'f';
  }

  /** Two participant lists credit the same rows exactly when they name the same keys: order, repetition
      and letter case are immaterial. */
  lemma CanonicalByNames(a: seq<Option<string>>, b: seq<Option<string>>)
    ensures Canonical(a) == Canonical(b) <==> forall key :: Names(a, key) <==> Names(b, key)
  {
    StrLeIsTotalOrder();
    forall key ensures (key in Spelled(a) <==> Names(a, key)) && (key in Spelled(b) <==> Names(b, key)) {
      SpelledMembers(a, key);
      SpelledMembers(b, key);
    }
    if forall key :: Names(a, key) <==> Names(b, key) {
      SortedSetByMembers(StrLe, Spelled(a), Spelled(b));
    }
    if Canonical(a) == Canonical(b) {
      forall key ensures Names(a, key) <==> Names(b, key) {
        SortedSetMembers(StrLe, Spelled(a), key);
        SortedSetMembers(StrLe, Spelled(b), key);
      }
    }
  }

  // ------------------------------------------------------------- the ledger

  datatype Outcome = Skipped | InvalidBudget | Recorded(perValidator: real, participants: seq<string>)

  /** The (validator, round) rows of validator_rewards with reward_type 'oracle_round'. */
  class RoundRewards {
    var rows: map<(string, int), real>

    constructor ()
      ensures rows == map[]
    {
      rows := map[];
    }

    /** `budget` is None when the configured text is not a plain decimal; `failing` are the keys whose
        INSERT IGNORE raises, which is logged and skipped. */
    method DistributeRewards(budget: Option<real>, round: int, participants: seq<Option<string>>, failing: set<string>)
      returns (outcome: Outcome)
      modifies this
      ensures participants == [] ==> outcome == Skipped
      ensures participants != [] && (budget.None? || budget.value <= 0.0) ==> outcome == InvalidBudget
      ensures participants != [] && budget.Some? && budget.value > 0.0 ==>
                outcome == if Canonical(participants) == [] then Skipped
                           else Recorded(PerValidator(budget.value, |Canonical(participants)|), Canonical(participants))
      ensures !outcome.Recorded? ==> rows == old(rows)
      ensures outcome.Recorded? ==>
                forall k :: k in rows <==> k in old(rows) || (k.1 == round && k.0 in outcome.participants && k.0 !in failing)
      ensures outcome.Recorded? ==>
                forall k :: k in rows ==> rows[k] == if k in old(rows) then old(rows)[k] else outcome.perValidator
    {
      if participants == [] { return Skipped; }
      if budget.None? || budget.value <= 0.0 { return InvalidBudget; }
      var valid := Canonical(participants);
      if valid == [] { return Skipped; }
      var perValidator := PerValidator(budget.value, |valid|);
      for i := 0 to |valid|
        invariant forall k :: k in rows <==> k in old(rows) || (k.1 == round && k.0 in valid[..i] && k.0 !in failing)
        invariant forall k :: k in rows ==> rows[k] == if k in old(rows) then old(rows)[k] else perValidator
      {
        assert valid[..i + 1] == valid[..i] + [valid[i]];
        if valid[i] !in failing && (valid[i], round) !in rows {
          rows := rows[(valid[i], round) := perValidator];
        }
      }
      assert valid[..|valid|] == valid;
      outcome := Recorded(perValidator, valid);
    }
  }
}
