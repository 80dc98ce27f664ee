/** Which shared gates are active at a height (src/consensus_rules_digest.js). Heights are exact numbers; an entry
    that is present but not a finite number is None. */
module ActiveGates {
  import opened JsValues
  import opened Ordering

  type Heights = map<string, Option<real>>

  /** A gate's value: a per-network map, or anything activeGatesAt skips. */
  datatype Gate = NotAMap | PerNetwork(heights: Heights)

  const FAR_FUTURE_HEIGHT_SENTINEL := 9999999999.0

  const UNIT_FILTER_HEIGHTS: seq<(string, real)> :=
    [("mainnet", 0.0), ("BTC:testnet", 156140.0), ("LTC:testnet", 4912553.0), ("DOGE:testnet", 67988245.0)]

  function Lookup(table: seq<(string, real)>, key: string): Option<real> {
    if table == [] then None else if table[0].0 == key then Some(table[0].1) else Lookup(table[1..], key)
  }

  predicate EndsWith(s: string, suffix: string) { |s| >= |suffix| && s[|s| - |suffix|..] == suffix }

  /** The smallest height among the entries whose key ends in suffix. */
  function SmallestCoined(table: seq<(string, real)>, suffix: string): Option<real> {
    if table == [] then None
    else
      var rest := SmallestCoined(table[1..], suffix);
      if !EndsWith(table[0].0, suffix) then rest
      else if rest.None? || table[0].1 < rest.value then Some(table[0].1) else rest
  }

  function UnitFilterHeight(network: string, coin: Option<string>): real {
    var keyed := if coin.Some? then Lookup(UNIT_FILTER_HEIGHTS, coin.value + (":" + network)) else None;
    var bare := Lookup(UNIT_FILTER_HEIGHTS, network);
    var coined := SmallestCoined(UNIT_FILTER_HEIGHTS, ":" + network);
    if keyed.Some? then keyed.value else if bare.Some? then bare.value else if coined.Some? then coined.value else 0.0
  }

  /** A text that splits at its only colon splits one way. */
  lemma OneColon(a: string, b: string, c: string, d: string)
    requires a + (":" + b) == c + (":" + d)
    requires ':' !in c && ':' !in d
    ensures a == c && b == d
  {
    var t := a + (":" + b);
    assert forall i :: 0 <= i < |c| ==> t[i] == c[i];
    assert forall i :: |c| < i < |t| ==> t[i] == (":" + d)[i - |c|] == d[i - |c| - 1];
    assert t[|a|] == ':' && |a| == |c|;
    assert t[..|a|] == a && t[..|c|] == c && t[|a| + 1..] == b && t[|c| + 1..] == d;
  }

  lemma CoinKeyIs(coin: string, network: string, c: string, n: string)
    requires ':' !in c && ':' !in n
    ensures coin + (":" + network) == c + (":" + n) <==> coin == c && network == n
  {
    if coin + (":" + network) == c + (":" + n) { OneColon(coin, network, c, n); }
  }

  lemma CoinSuffixIs(network: string, c: string, n: string)
    requires ':' !in c && ':' !in n
    ensures EndsWith(c + (":" + n), ":" + network) <==> network == n
  {
    var key := c + (":" + n);
    if EndsWith(key, ":" + network) {
      assert key == key[..|key| - |network| - 1] + (":" + network);
      OneColon(key[..|key| - |network| - 1], network, c, n);
    }
    if network == n { assert key[|key| - |":" + network|..] == ":" + network; }
  }

  lemma LookupRows(table: seq<(string, real)>, key: string)
    requires |table| == 4
    ensures Lookup(table, key) ==
              if key == table[0].0 then Some(table[0].1) else if key == table[1].0 then Some(table[1].1)
              else if key == table[2].0 then Some(table[2].1) else if key == table[3].0 then Some(table[3].1) else None
  {
    var t1, t2, t3 := table[1..], table[2..], table[3..];
    assert t1[1..] == t2 && t2[1..] == t3 && t3[1..] == [];
    assert Lookup(t3, key) == if key == table[3].0 then Some(table[3].1) else None;
    assert Lookup(t2, key) == if key == table[2].0 then Some(table[2].1) else Lookup(t3, key);
    assert Lookup(t1, key) == if key == table[1].0 then Some(table[1].1) else Lookup(t2, key);
  }

  lemma SmallestRows(table: seq<(string, real)>, suffix: string)
    requires |table| == 4
    ensures SmallestCoined(table, suffix) ==
              LeastOf(Ending(table[0], suffix), LeastOf(Ending(table[1], suffix), LeastOf(Ending(table[2], suffix), Ending(table[3], suffix))))
  {
    var t1, t2, t3 := table[1..], table[2..], table[3..];
    assert t1[1..] == t2 && t2[1..] == t3 && t3[1..] == [];
    assert SmallestCoined(t3, suffix) == Ending(table[3], suffix);
    assert SmallestCoined(t2, suffix) == LeastOf(Ending(table[2], suffix), SmallestCoined(t3, suffix));
    assert SmallestCoined(t1, suffix) == LeastOf(Ending(table[1], suffix), SmallestCoined(t2, suffix));
  }

  function Ending(row: (string, real), suffix: string): Option<real> { if EndsWith(row.0, suffix) then Some(row.1) else None }

  function LeastOf(a: Option<real>, b: Option<real>): Option<real> {
    if a.None? then b else if b.None? || a.value < b.value then a else b
  }

  /** From which height a missing unit counts, for every network and coin: the coin's own height on the test network,
      the lowest of them without a coin this table knows, the height of a coin-and-network pair given as the network,
      and zero anywhere else. */
  lemma FilterHeightExactly(network: string, coin: Option<string>)
    ensures UnitFilterHeight(network, coin) ==
            if network == "testnet" then
              if coin == Some("LTC") then 4912553.0 else if coin == Some("DOGE") then 67988245.0 else 156140.0
            else if network == "BTC:testnet" then 156140.0
            else if network == "LTC:testnet" then 4912553.0
            else if network == "DOGE:testnet" then 67988245.0
            else 0.0
  {
    TestnetKeys();
    TestnetRows(network);
    LookupRows(UNIT_FILTER_HEIGHTS, network);
    if coin.Some? {
      var key := coin.value + (":" + network);
      LookupRows(UNIT_FILTER_HEIGHTS, key);
      assert key[|coin.value|] == ':' && key != "mainnet";
      CoinKeyIs(coin.value, network, "BTC", "testnet");
      CoinKeyIs(coin.value, network, "LTC", "testnet");
      CoinKeyIs(coin.value, network, "DOGE", "testnet");
    }
  }

  lemma TestnetKeys()
    ensures "BTC:testnet" == "BTC" + (":" + "testnet") && "LTC:testnet" == "LTC" + (":" + "testnet")
         && "DOGE:testnet" == "DOGE" + (":" + "testnet")
    ensures ':' !in "testnet" && ':' !in "BTC" && ':' !in "LTC" && ':' !in "DOGE" && ':' !in "mainnet"
  {
  }

  lemma TestnetRows(network: string)
    ensures SmallestCoined(UNIT_FILTER_HEIGHTS, ":" + network) == if network == "testnet" then Some(156140.0) else None
  {
    TestnetKeys();
    CoinSuffixIs(network, "BTC", "testnet");
    CoinSuffixIs(network, "LTC", "testnet");
    CoinSuffixIs(network, "DOGE", "testnet");
    if EndsWith("mainnet", ":" + network) { SuffixHasColon("mainnet", network); }
    SmallestRows(UNIT_FILTER_HEIGHTS, ":" + network);
  }

  lemma SuffixHasColon(s: string, network: string)
    requires EndsWith(s, ":" + network)
    ensures ':' in s
  {
    assert s[|s| - |network| - 1] == (":" + network)[0];
  }

  // ------------------------------------------------------ activation heights

  predicate Armed(at: Option<real>) { at.Some? && at.value < FAR_FUTURE_HEIGHT_SENTINEL }

  /** The keys that speak for a network: the bare one, and '<COIN>:<network>' for a nonempty coin. */
  predicate SpeaksFor(key: string, network: string) {
    key == network || (|key| > |network| + 1 && EndsWith(key, ":" + network))
  }

  function CoinHeight(m: Heights, network: string, coin: string): Option<real> {
    var key := coin + (":" + network);
    if key in m then m[key] else if network in m then m[network] else None
  }

  /** Some key of the network is armed at or below h; with a coin named, that coin's own key or else the bare one. */
  ghost predicate ActivatesBy(m: Heights, network: string, coin: Option<string>, h: real) {
    match coin
    case Some(c) => Armed(CoinHeight(m, network, c)) && CoinHeight(m, network, c).value <= h
    case None => exists k :: k in m && SpeaksFor(k, network) && Armed(m[k]) && m[k].value <= h
  }

  /** None stands for undefined and for a value that is no finite number. */
  method NetworkActivationHeight(m: Heights, network: string, coin: Option<string>) returns (at: Option<real>)
    ensures coin.Some? ==> at == CoinHeight(m, network, coin.value)
    ensures forall h :: (Armed(at) && at.value <= h) <==> ActivatesBy(m, network, coin, h)
  {
    if coin.Some? { return CoinHeight(m, network, coin.value); }
    var earliest: Option<real> := None;
    var declared := false;
    var todo := m.Keys;
    while todo != {}
      invariant todo <= m.Keys
      invariant declared <==> exists k :: k in m && k !in todo && SpeaksFor(k, network)
      invariant earliest.Some? ==> exists k :: k in m && k !in todo && SpeaksFor(k, network) && Armed(m[k]) && m[k] == earliest
      invariant forall k :: k in m && k !in todo && SpeaksFor(k, network) && Armed(m[k]) ==> earliest.Some? && earliest.value <= m[k].value
      decreases |todo|
    {
      var k :| k in todo;
      todo := todo - {k};
      if !SpeaksFor(k, network) { continue; }
      declared := true;
      if !Armed(m[k]) { continue; }
      if earliest.None? || m[k].value < earliest.value { earliest := m[k]; }
    }
    if earliest.Some? { return earliest; }
    at := if declared && network in m then m[network] else None;
    assert network in m ==> SpeaksFor(network, network);
  }

  // ------------------------------------------------------------- active set

  /** hasUnit says which registry rows carry an activation unit. */
  ghost predicate IsActive(key: string, gate: Gate, hasUnit: string -> bool, network: string, coin: Option<string>, h: real) {
    && gate.PerNetwork?
    && (h >= UnitFilterHeight(network, coin) ==> hasUnit(key))
    && ActivatesBy(gate.heights, network, coin, h)
  }

  ghost predicate IsActiveList(out: seq<string>, gates: map<string, Gate>, hasUnit: string -> bool,
                               network: string, coin: Option<string>, h: real) {
    && Sorted(StrLe, out)
    && (forall i, j :: 0 <= i < j < |out| ==> out[i] != out[j])
    && forall k :: k in out <==> k in gates && IsActive(k, gates[k], hasUnit, network, coin, h)
  }

  method ActiveGatesAt(gates: map<string, Gate>, hasUnit: string -> bool, height: Num, network: string, coin: Option<string>)
    returns (out: seq<string>)
    ensures !height.Fin? ==> out == []
    ensures height.Fin? ==> IsActiveList(out, gates, hasUnit, network, coin, height.value)
  {
    if !height.Fin? { return []; }
    var h := height.value;
    out := [];
    var filterUnits := h >= UnitFilterHeight(network, coin);
    var todo := gates.Keys;
    while todo != {}
      invariant todo <= gates.Keys
      invariant forall i, j :: 0 <= i < j < |out| ==> out[i] != out[j]
      invariant forall k :: k in out <==> k in gates && k !in todo && IsActive(k, gates[k], hasUnit, network, coin, h)
      decreases |todo|
    {
      var key :| key in todo;
      todo := todo - {key};
      var v := gates[key];
      if v.NotAMap? { continue; }
      if filterUnits && !hasUnit(key) { continue; }
      var at := NetworkActivationHeight(v.heights, network, coin);
      if !Armed(at) { continue; }
      if at.value <= h { out := out + [key]; }
    }
    SortedList(out);
    out := Sort(StrLe, out);
  }

  lemma SortedList(s: seq<string>)
    requires forall i, j :: 0 <= i < j < |s| ==> s[i] != s[j]
    ensures Sorted(StrLe, Sort(StrLe, s))
    ensures forall i, j :: 0 <= i < j < |Sort(StrLe, s)| ==> Sort(StrLe, s)[i] != Sort(StrLe, s)[j]
    ensures forall k :: k in Sort(StrLe, s) <==> k in s
  {
    StrLeIsTotalOrder();
    SortSorted(StrLe, s);
    SortKeepsDistinct(StrLe, s);
    forall k ensures k in Sort(StrLe, s) <==> k in s { SortMembers(StrLe, s, k); }
  }

  // ------------------------------------------------------------- properties

  /** Whether a gate is active, on its own entries: some height it declares for the network, below the sentinel, has been
      reached (with a coin named, the coin's own, or else the bare one), and it has a unit where one is asked for. */
  lemma ActiveExactly(key: string, gate: Gate, hasUnit: string -> bool, network: string, coin: Option<string>, h: real)
    ensures IsActive(key, gate, hasUnit, network, coin, h) <==>
              && gate.PerNetwork?
              && (hasUnit(key) || h < UnitFilterHeight(network, coin))
              && exists k :: k in gate.heights && DeclaredFor(k, gate.heights.Keys, network, coin)
                             && gate.heights[k].Some? && gate.heights[k].value <= h && gate.heights[k].value < 9999999999.0
  {
    if gate.PerNetwork? {
      var m := gate.heights;
      match coin
      case Some(c) =>
        var k := if c + (":" + network) in m then c + (":" + network) else network;
        assert c + (":" + network) == c + ":" + network;
        assert k in m ==> DeclaredFor(k, m.Keys, network, coin);
      case None =>
        forall k ensures SpeaksFor(k, network) <==> DeclaredFor(k, m.Keys, network, None) {
          NetworkKeys(k, network);
        }
    }
  }

  /** k is the key a lookup for the network reads, or with no coin named one of them. */
  ghost predicate DeclaredFor(k: string, keys: set<string>, network: string, coin: Option<string>) {
    match coin
    case Some(c) => k == if c + ":" + network in keys then c + ":" + network else network
    case None => k == network || exists c :: c != "" && k == c + ":" + network
  }

  lemma NetworkKeys(k: string, network: string)
    ensures SpeaksFor(k, network) <==> k == network || exists c :: c != "" && k == c + ":" + network
  {
    if SpeaksFor(k, network) && k != network {
      var c := k[..|k| - |network| - 1];
      assert c != "" && k == c + ":" + network;
    }
    if c :| c != "" && k == c + ":" + network {
      assert k == c + (":" + network);
      CoinKeySpeaks(c, network);
    }
  }

  /** A gate with an activation unit, once active, stays active as the chain grows. */
  lemma UnitGatesOnlyGrow(key: string, gate: Gate, hasUnit: string -> bool, network: string, coin: Option<string>, h: real, later: real)
    requires hasUnit(key) && h <= later && IsActive(key, gate, hasUnit, network, coin, h)
    ensures IsActive(key, gate, hasUnit, network, coin, later)
  {
    if coin.None? {
      var k :| k in gate.heights && SpeaksFor(k, network) && Armed(gate.heights[k]) && gate.heights[k].value <= h;
      assert gate.heights[k].value <= later;
    }
  }

  /** A gate leaves the active set exactly when the height crosses the unit-filter height, and it has no unit. */
  lemma LostExactlyAtFilter(key: string, gate: Gate, hasUnit: string -> bool, network: string, coin: Option<string>, h: real, later: real)
    requires h <= later && IsActive(key, gate, hasUnit, network, coin, h)
    ensures !IsActive(key, gate, hasUnit, network, coin, later) <==>
            !hasUnit(key) && h < UnitFilterHeight(network, coin) <= later
  {
    if coin.None? {
      var k :| k in gate.heights && SpeaksFor(k, network) && Armed(gate.heights[k]) && gate.heights[k].value <= h;
      assert gate.heights[k].value <= later;
    }
  }

  /** Some coin name no key of the map mentions. */
  lemma UnnamedCoin(m: Heights, network: string) returns (coin: string)
    ensures coin != "" && coin + (":" + network) !in m
  {
    var n := LongestKey(m.Keys);
    coin := seq(n + 1, i => 'X');
  }

  lemma LongestKey(keys: set<string>) returns (n: nat)
    ensures forall k :: k in keys ==> |k| <= n
  {
    if keys == {} {
      n := 0;
    } else {
      var k :| k in keys;
      var rest := LongestKey(keys - {k});
      n := if |k| > rest then |k| else rest;
    }
  }

  lemma CoinKeySpeaks(coin: string, network: string)
    requires coin != ""
    ensures SpeaksFor(coin + (":" + network), network)
  {
    var key := coin + (":" + network);
    assert key[|key| - |":" + network|..] == ":" + network;
  }

  /** Without a coin the answer for gates with a unit is the union over all coin names. */
  lemma CoinlessIsUnion(key: string, gate: Gate, hasUnit: string -> bool, network: string, h: real)
    requires hasUnit(key)
    ensures IsActive(key, gate, hasUnit, network, None, h) <==>
            exists coin :: coin != "" && IsActive(key, gate, hasUnit, network, Some(coin), h)
  {
    if IsActive(key, gate, hasUnit, network, None, h) {
      var m := gate.heights;
      var k :| k in m && SpeaksFor(k, network) && Armed(m[k]) && m[k].value <= h;
      var coin: string;
      if k == network {
        coin := UnnamedCoin(m, network);
      } else {
        coin := k[..|k| - |network| - 1];
        assert coin + (":" + network) == k;
      }
      assert CoinHeight(m, network, coin) == m[k];
      assert IsActive(key, gate, hasUnit, network, Some(coin), h);
    }
    if coin :| coin != "" && IsActive(key, gate, hasUnit, network, Some(coin), h) {
      CoinKeySpeaks(coin, network);
      var k := if coin + (":" + network) in gate.heights then coin + (":" + network) else network;
      assert k in gate.heights && SpeaksFor(k, network);
    }
  }

  lemma {:induction false} LookupAtLeast(table: seq<(string, real)>, key: string, suffix: string)
    requires EndsWith(key, suffix) && Lookup(table, key).Some?
    ensures SmallestCoined(table, suffix).Some? && SmallestCoined(table, suffix).value <= Lookup(table, key).value
  {
    if table[0].0 != key { LookupAtLeast(table[1..], key, suffix); }
  }

  /** Judging one chain never filters earlier than judging the whole network, where no bare height is set. */
  lemma CoinFiltersLater(network: string, coin: string)
    requires Lookup(UNIT_FILTER_HEIGHTS, network).None?
    ensures UnitFilterHeight(network, None) <= UnitFilterHeight(network, Some(coin))
  {
    var key := coin + (":" + network);
    if Lookup(UNIT_FILTER_HEIGHTS, key).Some? {
      assert key[|key| - |":" + network|..] == ":" + network;
      LookupAtLeast(UNIT_FILTER_HEIGHTS, key, ":" + network);
    }
  }
}
