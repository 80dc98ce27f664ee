/** Fill selection of src/xchainPriceQuery.js: the block window, the row mapping and the canonical order. */
module XchainPriceQuery {
  import opened JsValues
  import opened Ordering
  import opened XchainPrice

  datatype Window = Empty(reason: string) | Blocks(fromExclusive: int, toInclusive: int)

  /** The three heights are None when they are not integers. */
  function ComputeWindowBounds(referenceHeight: Option<int>, confirmationBuffer: Option<int>, windowLength: Option<int>): Window {
    if referenceHeight.None? || referenceHeight.value < 0 then Empty("reference height invalid")
    else if confirmationBuffer.None? || confirmationBuffer.value < 0 then Empty("confirmation buffer invalid")
    else if windowLength.None? || windowLength.value <= 0 then Empty("window length invalid")
    else
      var top := referenceHeight.value - confirmationBuffer.value;
      if top <= 0 then Empty("chain younger than confirmation buffer")
      else Blocks(if top - windowLength.value > 0 then top - windowLength.value else 0, top)
  }

  predicate InWindow(w: Window, block: int) {
    w.Blocks? && w.fromExclusive < block <= w.toInclusive
  }

  /** Windows tile: a block b >= 1 is in the window of exactly the W reference heights b+K .. b+K+W-1,
      and no window ever holds a block below 1. */
  lemma WindowsTile(height: int, buffer: nat, length: nat, block: int)
    requires length > 0
    ensures InWindow(ComputeWindowBounds(Some(height), Some(buffer), Some(length)), block)
            <==> block >= 1 && block + buffer <= height <= block + buffer + length - 1
  {
  }

  // --------------------------------------------------------- row selection

  datatype IdRow = IdRow(name: string, id: Option<int>)
  datatype Selected = Chosen(id: int) | Refused

  /** Exactly one row, exactly named, with a positive integer id: the rule for the coin and the ticker. */
  function SelectId(rows: seq<IdRow>, expected: string): Selected {
    if |rows| == 1 && rows[0].name == expected && rows[0].id.Some? && rows[0].id.value > 0
    then Chosen(rows[0].id.value) else Refused
  }

  datatype DispenseRow = DispenseRow(actionIndex: int, blockIndex: int, xchain: Option<real>, coin: Option<real>)

  /** A tick id or an amount is None when the column is NULL; an amount column that is not NULL holds text,
      itself None when it is not a number. */
  datatype DexRow = DexRow(actionIndex: int, blockIndex: int, giveTick: Option<int>, getTick: Option<int>,
                           giveAmount: Option<Option<real>>, getAmount: Option<Option<real>>)

  function MapDispenseRow(row: DispenseRow): Option<Fill> {
    Some(Fill(Dispense, row.actionIndex, row.blockIndex, row.xchain, row.coin))
  }

  function MapDexRow(row: DexRow, tick: int): Option<Fill> {
    var xchainCoin :=
      if row.giveTick == Some(tick) && row.getTick.None? then Some((row.giveAmount, row.getAmount))
      else if row.getTick == Some(tick) && row.giveTick.None? then Some((row.getAmount, row.giveAmount))
      else None;
    if xchainCoin.None? || xchainCoin.value.0.None? || xchainCoin.value.1.None? then None
    else Some(Fill(Dex, row.actionIndex, row.blockIndex, xchainCoin.value.0.value, xchainCoin.value.1.value))
  }

  /** Which side carries XCHAIN is immaterial: a trade and its mirror image map to the same fill. */
  lemma DexOrientation(row: DexRow, tick: int)
    ensures MapDexRow(row, tick)
         == MapDexRow(DexRow(row.actionIndex, row.blockIndex, row.getTick, row.giveTick, row.getAmount, row.giveAmount), tick)
  {
  }

  // ------------------------------------------------------- canonical order

  /** compareFills(a, b) <= 0: block, then action index, then venue ('dex' before 'dispense'). */
  predicate FillLe(a: Fill, b: Fill) {
    a.blockIndex < b.blockIndex
    || (a.blockIndex == b.blockIndex
        && (a.actionIndex < b.actionIndex
            || (a.actionIndex == b.actionIndex && (a.venue.Dex? || b.venue.Dispense?))))
  }

  predicate SameKey(a: Fill, b: Fill) {
    a.blockIndex == b.blockIndex && a.actionIndex == b.actionIndex && a.venue == b.venue
  }

  lemma FillLeIsPreorder()
    ensures Preorder(FillLe)
    ensures forall a, b :: FillLe(a, b) && FillLe(b, a) <==> SameKey(a, b)
  {
  }

  ghost predicate KeysDecide(fills: seq<Fill>) {
    forall a, b :: a in fills && b in fills && SameKey(a, b) ==> a == b
  }

  datatype Answer = Failed | Fills(fills: seq<Fill>, window: Window)

  /** Both row sets mapped and concatenated, unusable shapes dropped. */
  function Gathered(dispenseRows: seq<DispenseRow>, dexRows: seq<DexRow>, tick: int): seq<Fill> {
    MapSome(MapDispenseRow, dispenseRows) + MapSome(row => MapDexRow(row, tick), dexRows)
  }

  /** getWindowFills with its four queries' rows as inputs. */
  function GetWindowFills(window: Window, coinRows: seq<IdRow>, coin: string, tickRows: seq<IdRow>, gasTick: string,
                          dispenseRows: seq<DispenseRow>, dexRows: seq<DexRow>): Answer
  {
    if window.Empty? then Fills([], window)
    else if SelectId(coinRows, coin).Refused? || SelectId(tickRows, gasTick).Refused? then Failed
    else Fills(Sort(FillLe, Gathered(dispenseRows, dexRows, SelectId(tickRows, gasTick).id)), window)
  }

  /** Any arrangement of the same database rows yields the same fill sequence, hence the same price,
      as long as the sort key decides the fill. */
  lemma RowOrderImmaterial(
    window: Window, coinRows: seq<IdRow>, coin: string, tickRows: seq<IdRow>, gasTick: string,
    dispenseA: seq<DispenseRow>, dispenseB: seq<DispenseRow>, dexA: seq<DexRow>, dexB: seq<DexRow>,
    refRate: Option<real>, band: Option<real>)
    requires multiset(dispenseA) == multiset(dispenseB) && multiset(dexA) == multiset(dexB)
    requires var a := GetWindowFills(window, coinRows, coin, tickRows, gasTick, dispenseA, dexA); a.Fills? ==> KeysDecide(a.fills)
    ensures var a, b := GetWindowFills(window, coinRows, coin, tickRows, gasTick, dispenseA, dexA),
                        GetWindowFills(window, coinRows, coin, tickRows, gasTick, dispenseB, dexB);
            a == b && (a.Fills? ==> Derived(a.fills, refRate, band) == Derived(b.fills, refRate, band))
  {
    if window.Blocks? && SelectId(coinRows, coin).Chosen? && SelectId(tickRows, gasTick).Chosen? {
      var tick := SelectId(tickRows, gasTick).id;
      MapSomePermute(MapDispenseRow, dispenseA, dispenseB);
      MapSomePermute(row => MapDexRow(row, tick), dexA, dexB);
      SameSort(Gathered(dispenseA, dexA, tick), Gathered(dispenseB, dexB, tick));
    }
  }

  lemma SameSort(a: seq<Fill>, b: seq<Fill>)
    requires multiset(a) == multiset(b) && KeysDecide(Sort(FillLe, a))
    ensures Sort(FillLe, a) == Sort(FillLe, b)
  {
    FillLeIsPreorder();
    SortElements(FillLe, a);
    SortElements(FillLe, b);
    SortSorted(FillLe, a);
    SortSorted(FillLe, b);
    SortedUnique(FillLe, Sort(FillLe, a), Sort(FillLe, b));
  }

  ghost predicate OrderImmaterial(fills: seq<Fill>) {
    forall other :: multiset(other) == multiset(fills) ==> Sort(FillLe, other) == Sort(FillLe, fills)
  }

  /** The key condition is exact: the sorted sequence is independent of arrival order if and only if the
      sort key decides the fill. */
  lemma OrderImmaterialExactly(fills: seq<Fill>)
    ensures OrderImmaterial(fills) <==> KeysDecide(fills)
  {
    SortElements(FillLe, fills);
    forall x ensures x in Sort(FillLe, fills) <==> x in fills { SortMembers(FillLe, fills, x); }
    if KeysDecide(fills) {
      forall other | multiset(other) == multiset(fills) ensures Sort(FillLe, other) == Sort(FillLe, fills) {
        SameSort(fills, other);
      }
    } else {
      var f, g :| f in fills && g in fills && SameKey(f, g) && f != g;
      var i :| 0 <= i < |fills| && fills[i] == f;
      var j :| 0 <= j < |fills| && fills[j] == g;
      if i < j { SplitAndSwap(fills, i, j); } else { SplitAndSwap(fills, j, i); }
    }
  }

  /** If two different fills tie, swapping them changes the sequence: the sort keeps ties in arrival order. */
  lemma TiesMakeOrderMatter(before: seq<Fill>, f: Fill, between: seq<Fill>, g: Fill, after: seq<Fill>)
    requires SameKey(f, g) && f != g
    ensures !OrderImmaterial(before + [f] + between + [g] + after)
  {
    SwapChangesSort(before, f, between, g, after);
    SwapElements(before, f, between, g, after);
  }

  lemma SplitAndSwap(fills: seq<Fill>, i: nat, j: nat)
    requires i < j < |fills| && SameKey(fills[i], fills[j]) && fills[i] != fills[j]
    ensures !OrderImmaterial(fills)
  {
    SplitAtTwo(fills, i, j);
    TiesMakeOrderMatter(fills[..i], fills[i], fills[i + 1..j], fills[j], fills[j + 1..]);
  }

  lemma SplitAtTwo<T>(s: seq<T>, i: nat, j: nat)
    requires i < j < |s|
    ensures s == s[..i] + [s[i]] + s[i + 1..j] + [s[j]] + s[j + 1..]
  {
  }

  lemma SwapElements<T>(a: seq<T>, f: T, b: seq<T>, g: T, c: seq<T>)
    ensures multiset(a + [f] + b + [g] + c) == multiset(a + [g] + b + [f] + c)
  {
    var rest := multiset(a) + multiset(b) + multiset(c) + multiset{f} + multiset{g};
    assert multiset(a + [f] + b + [g] + c) == rest;
    assert multiset(a + [g] + b + [f] + c) == rest;
  }

  lemma SwapChangesSort(before: seq<Fill>, f: Fill, between: seq<Fill>, g: Fill, after: seq<Fill>)
    requires SameKey(f, g) && f != g
    ensures Sort(FillLe, before + [f] + between + [g] + after) != Sort(FillLe, before + [g] + between + [f] + after)
  {
    FillLeIsPreorder();
    var fills, swapped := before + [f] + between + [g] + after, before + [g] + between + [f] + after;
    SortStable(FillLe, f, fills);
    SortStable(FillLe, f, swapped);
    TiesOfFive(before, f, between, g, after);
    TiesOfFive(before, g, between, f, after);
    TiesSameKey(f, g, before);
    TiesSameKey(f, g, swapped);
    var t := Ties(FillLe, f, before);
    assert Ties(FillLe, f, fills)[|t|] == f && Ties(FillLe, f, swapped)[|t|] == g;
  }

  lemma TiesOfFive(before: seq<Fill>, f: Fill, between: seq<Fill>, g: Fill, after: seq<Fill>)
    requires SameKey(f, g)
    ensures Ties(FillLe, f, before + [f] + between + [g] + after) == Ties(FillLe, f, before) + ([f] + Ties(FillLe, f, between + [g] + after))
  {
    assert before + [f] + between + [g] + after == before + ([f] + (between + [g] + after));
    TiesConcat(FillLe, f, before, [f] + (between + [g] + after));
    assert ([f] + (between + [g] + after))[1..] == between + [g] + after;
  }

  lemma {:induction false} TiesSameKey(f: Fill, g: Fill, s: seq<Fill>)
    requires SameKey(f, g)
    ensures Ties(FillLe, f, s) == Ties(FillLe, g, s)
  {
    if s != [] { TiesSameKey(f, g, s[1..]); }
  }

  // ------------------------------------------------------ what is selected

  /** Exactly when there is no window to look at: a height or buffer that is missing or negative, a length that is missing or
      not positive, or a chain no longer than the buffer. */
  lemma WindowRefusedExactly(height: Option<int>, buffer: Option<int>, length: Option<int>)
    ensures ComputeWindowBounds(height, buffer, length).Empty? <==>
            || height.None? || height.value < 0 || buffer.None? || buffer.value < 0 || length.None? || length.value <= 0
            || height.value <= buffer.value
  {
  }

  /** The row is a trade of the tick against the chain's coin, for these amounts, on either side. */
  predicate TradesFor(row: DexRow, tick: int, f: Fill) {
    && f.venue == Dex && f.actionIndex == row.actionIndex && f.blockIndex == row.blockIndex
    && ((row.giveTick == Some(tick) && row.getTick == None && row.giveAmount == Some(f.xchain) && row.getAmount == Some(f.coin))
        || (row.getTick == Some(tick) && row.giveTick == None && row.getAmount == Some(f.xchain) && row.giveAmount == Some(f.coin)))
  }

  predicate DispensesFor(row: DispenseRow, f: Fill) {
    && f.venue == Dispense && f.actionIndex == row.actionIndex && f.blockIndex == row.blockIndex
    && f.xchain == row.xchain && f.coin == row.coin
  }

  ghost function TradesOf(rows: seq<DexRow>, tick: int, f: Fill): set<int> { set i | 0 <= i < |rows| && TradesFor(rows[i], tick, f) }

  ghost function DispensesOf(rows: seq<DispenseRow>, f: Fill): set<int> { set i | 0 <= i < |rows| && DispensesFor(rows[i], f) }

  lemma TradesCounted(rows: seq<DexRow>, tick: int, f: Fill)
    ensures multiset(MapSome(row => MapDexRow(row, tick), rows))[f] == |TradesOf(rows, tick, f)|
  {
    MapSomeCount(row => MapDexRow(row, tick), rows, f);
    forall i | 0 <= i < |rows| ensures MapDexRow(rows[i], tick) == Some(f) <==> TradesFor(rows[i], tick, f) { TradeMapped(rows[i], tick, f); }
    assert AnsweredAt(row => MapDexRow(row, tick), rows, f) == TradesOf(rows, tick, f);
  }

  lemma TradeMapped(row: DexRow, tick: int, f: Fill)
    ensures MapDexRow(row, tick) == Some(f) <==> TradesFor(row, tick, f)
  {
  }

  lemma DispensesCounted(rows: seq<DispenseRow>, f: Fill)
    ensures multiset(MapSome(MapDispenseRow, rows))[f] == |DispensesOf(rows, f)|
  {
    MapSomeCount(MapDispenseRow, rows, f);
    assert AnsweredAt(MapDispenseRow, rows, f) == DispensesOf(rows, f);
  }

  /** The one row names what was asked for and carries a positive id. */
  predicate Identified(rows: seq<IdRow>, name: string) {
    |rows| == 1 && rows[0].name == name && rows[0].id.Some? && rows[0].id.value > 0
  }

  predicate Before(a: Fill, b: Fill) {
    || a.blockIndex < b.blockIndex
    || (a.blockIndex == b.blockIndex && a.actionIndex < b.actionIndex)
    || (a.blockIndex == b.blockIndex && a.actionIndex == b.actionIndex && (a.venue == b.venue || a.venue == Dex))
  }

  /** The answer, row by row: every dispense and every trade of the tick for the chain's coin is there as often as it was read
      and nothing else is, in order of block, action and venue; it fails exactly when the coin or the tick is not identified.
      An empty window reads nothing, and answers no fills. */
  lemma FillsExactly(window: Window, coinRows: seq<IdRow>, coin: string, tickRows: seq<IdRow>, gasTick: string,
                     dispenseRows: seq<DispenseRow>, dexRows: seq<DexRow>)
    ensures var a := GetWindowFills(window, coinRows, coin, tickRows, gasTick, dispenseRows, dexRows);
            && (window.Empty? ==> a.Fills? && a.fills == [] && a.window == window)
            && (window.Blocks? ==> (a.Fills? <==> Identified(coinRows, coin) && Identified(tickRows, gasTick)))
            && (window.Blocks? && a.Fills? ==>
                  && a.window == window
                  && (forall f :: multiset(a.fills)[f] == |DispensesOf(dispenseRows, f)| + |TradesOf(dexRows, tickRows[0].id.value, f)|)
                  && forall i, j :: 0 <= i < j < |a.fills| ==> Before(a.fills[i], a.fills[j]))
  {
    if Identified(coinRows, coin) && Identified(tickRows, gasTick) {
      var tick := tickRows[0].id.value;
      var all := Gathered(dispenseRows, dexRows, tick);
      SortElements(FillLe, all);
      FillLeIsPreorder();
      SortSorted(FillLe, all);
      forall f ensures multiset(all)[f] == |DispensesOf(dispenseRows, f)| + |TradesOf(dexRows, tick, f)| {
        DispensesCounted(dispenseRows, f);
        TradesCounted(dexRows, tick, f);
      }
    }
  }
}
