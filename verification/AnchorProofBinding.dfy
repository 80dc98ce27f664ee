/** Judging whether the anchor rows one transaction carries prove a reward (src/anchor/anchor_proof_binding.js).
    Numeric fields hold what `Number(field)` makes of them. */
module AnchorProofBinding {
  import opened JsValues
  import opened Pubkeys

  datatype BatchSeq = Undefined | Null | Given(n: Num)

  datatype Row = Row(version: Num, chain: string, network: string, publisher: string, status: string,
                     snapshotBlock: Num, batchSeq: BatchSeq, actionIndex: Num, confirmations: Num)

  datatype Expectation = Expectation(rewardType: string, minConfirmations: Num, network: string, publisher: string,
                                     roundReference: Num, snapshotBlock: Num, legacyDropped: bool)

  datatype Family = Archive | Bundle

  datatype Tuple = Tuple(minConf: Num, network: string, publisher: string, round: Num, snapshot: Num,
                         family: Family, versions: set<int>)

  datatype Verdict = Verified | Rejected | Unknown

  const ATTESTED_VERSIONS := {0, 1, 3, 4, 5, 6, 7}

  function NumberOf(b: BatchSeq): Num {
    match b
    case Undefined => NaN
    case Null => Fin(0.0)
    case Given(n) => n
  }

  predicate Includes(versions: set<int>, n: Num) {
    IsInteger(n) && n.value.Floor in versions
  }

  function RewardFamily(rewardType: string): Option<Family> {
    if rewardType == "anchor_archive" then Some(Archive)
    else if rewardType == "anchor_bundle" then Some(Bundle)
    else None
  }

  function RewardFamilyVersions(family: Family, legacyDropped: bool): set<int> {
    var all := if family == Archive then {1, 6} else {0, 3, 7};
    if legacyDropped then all - {6, 7} else all
  }

  // -------------------------------------------------------------- statuses

  predicate StartsWith(s: string, p: string) { p <= s }

  function SkipDigits(s: string): string {
    if s != [] && '0' <= s[0] <= '9' then SkipDigits(s[1..]) else s
  }

  /** Matches `invalid: SECTION <digits> insufficient` at the start of an already lowered status. */
  predicate SectionInsufficient(s: string) {
    var head := "invalid: section ";
    StartsWith(s, head) &&
    var rest := s[|head|..];
    SkipDigits(rest) != rest && StartsWith(SkipDigits(rest), " insufficient")
  }

  predicate NodeClassDependent(status: string) {
    var s := Lower(status);
    StartsWith(s, "unverified") || StartsWith(s, "invalid: insufficient") || SectionInsufficient(s) || StartsWith(s, "invalid_archive")
  }

  predicate SaysInvalid(status: string) { StartsWith(Lower(status), "invalid") }

  predicate DeterministicallyInvalid(status: string) {
    SaysInvalid(status) && !NodeClassDependent(status)
  }

  // ------------------------------------------------------------ predicates

  predicate IsRewardCandidateRow(a: Row, network: string, publisher: string) {
    !DeterministicallyInvalid(a.status) && a.network == network && Lower(a.publisher) == publisher
  }

  predicate IsBundleSectionRow(a: Row) {
    NumEq(a.version, Fin(3.0)) ==> a.chain != "" && !a.batchSeq.Given?
  }

  datatype Headers = Headers(byAction: map<int, real>, filtered: Option<real>)

  /** The block a row's bundle is held to: its action's maximum, or the filtered one when it names no known action. */
  function HeaderFor(h: Headers, actionIndex: Num): Option<real> {
    if IsInteger(actionIndex) && actionIndex.value.Floor in h.byAction then Some(h.byAction[actionIndex.value.Floor])
    else h.filtered
  }

  predicate BindsToTuple(a: Row, t: Tuple, headers: Headers) {
    && Includes(t.versions, a.version)
    && IsRewardCandidateRow(a, t.network, t.publisher)
    && (t.family == Bundle ==>
          && IsBundleSectionRow(a)
          && a.snapshotBlock.Fin?
          && HeaderFor(headers, a.actionIndex) == Some(a.snapshotBlock.value))
    && NumEq(a.snapshotBlock, t.snapshot)
    && NumEq(if t.family == Archive then NumberOf(a.batchSeq) else a.snapshotBlock, t.round)
  }

  // --------------------------------------------------- the bundle's header

  predicate IsSection(a: Row, versions: set<int>) {
    Includes(versions, a.version) && IsBundleSectionRow(a) && a.snapshotBlock.Fin?
  }

  predicate InAction(a: Row, k: int) { a.actionIndex == Fin(k as real) }

  /** b is the largest block among the rows satisfying p. */
  ghost predicate IsMaximum(rows: seq<Row>, p: Row -> bool, b: real) {
    && (exists a :: a in rows && p(a) && a.snapshotBlock == Fin(b))
    && (forall a :: a in rows && p(a) ==> a.snapshotBlock.Fin? && a.snapshotBlock.value <= b)
  }

  ghost function ActionSections(versions: set<int>, k: int): Row -> bool {
    a => IsSection(a, versions) && InAction(a, k)
  }

  ghost function CandidateSections(versions: set<int>, network: string, publisher: string): Row -> bool {
    a => IsSection(a, versions) && IsRewardCandidateRow(a, network, publisher)
  }

  /** h holds, for each action with a section, that action's largest section block, and the largest over all
      candidate sections. */
  ghost predicate AreHeaders(h: Headers, rows: seq<Row>, versions: set<int>, network: string, publisher: string) {
    && (forall k :: k in h.byAction ==> IsMaximum(rows, ActionSections(versions, k), h.byAction[k]))
    && (forall a :: a in rows && IsSection(a, versions) && IsInteger(a.actionIndex) ==> a.actionIndex.value.Floor in h.byAction)
    && match h.filtered
       case None => forall a :: a in rows ==> !CandidateSections(versions, network, publisher)(a)
       case Some(b) => IsMaximum(rows, CandidateSections(versions, network, publisher), b)
  }

  function Larger(cur: Option<real>, b: real): real {
    if cur.None? || b > cur.value then b else cur.value
  }

  /** The running maximum after one more row. */
  lemma ExtendMaximum(rows: seq<Row>, p: Row -> bool, cur: Option<real>, a: Row, b: real)
    requires match cur case None => (forall r :: r in rows ==> !p(r)) case Some(m) => IsMaximum(rows, p, m)
    requires a.snapshotBlock == Fin(b) && p(a)
    ensures IsMaximum(rows + [a], p, Larger(cur, b))
  {
    assert a in rows + [a];
    assert forall r :: r in rows + [a] ==> r in rows || r == a;
    if cur.Some? {
      var w :| w in rows && p(w) && w.snapshotBlock == Fin(cur.value);
      assert w in rows + [a];
    }
  }

  lemma KeepMaximum(rows: seq<Row>, p: Row -> bool, a: Row, b: real)
    requires IsMaximum(rows, p, b) && !p(a)
    ensures IsMaximum(rows + [a], p, b)
  {
    var w :| w in rows && p(w) && w.snapshotBlock == Fin(b);
    assert w in rows + [a];
  }

  /** What one row does to the headers. */
  function AddRow(h: Headers, a: Row, versions: set<int>, network: string, publisher: string): Headers {
    if !IsSection(a, versions) then h
    else
      var b := a.snapshotBlock.value;
      var byAction :=
        if !IsInteger(a.actionIndex) then h.byAction
        else var k := a.actionIndex.value.Floor;
             h.byAction[k := Larger(if k in h.byAction then Some(h.byAction[k]) else None, b)];
      var filtered :=
        if IsRewardCandidateRow(a, network, publisher) then Some(Larger(h.filtered, b)) else h.filtered;
      Headers(byAction, filtered)
  }

  lemma AddRowFiltered(h: Headers, rows: seq<Row>, a: Row, versions: set<int>, network: string, publisher: string)
    requires AreHeaders(h, rows, versions, network, publisher)
    ensures var p := CandidateSections(versions, network, publisher);
            match AddRow(h, a, versions, network, publisher).filtered
            case None => forall r :: r in rows + [a] ==> !p(r)
            case Some(b) => IsMaximum(rows + [a], p, b)
  {
    var p := CandidateSections(versions, network, publisher);
    if p(a) {
      ExtendMaximum(rows, p, h.filtered, a, a.snapshotBlock.value);
    } else if h.filtered.Some? {
      KeepMaximum(rows, p, a, h.filtered.value);
    }
  }

  lemma AddRowByAction(h: Headers, rows: seq<Row>, a: Row, versions: set<int>, network: string, publisher: string, k: int)
    requires AreHeaders(h, rows, versions, network, publisher)
    ensures var g := AddRow(h, a, versions, network, publisher);
            k in g.byAction ==> IsMaximum(rows + [a], ActionSections(versions, k), g.byAction[k])
  {
    var p := ActionSections(versions, k);
    if p(a) {
      var cur := if k in h.byAction then Some(h.byAction[k]) else None;
      if cur.None? {
        assert forall r :: r in rows && IsSection(r, versions) && IsInteger(r.actionIndex) ==> r.actionIndex.value.Floor != k;
      }
      ExtendMaximum(rows, p, cur, a, a.snapshotBlock.value);
    } else if k in h.byAction {
      KeepMaximum(rows, p, a, h.byAction[k]);
    }
  }

  lemma AddRowIsHeaders(h: Headers, rows: seq<Row>, a: Row, versions: set<int>, network: string, publisher: string)
    requires AreHeaders(h, rows, versions, network, publisher)
    ensures AreHeaders(AddRow(h, a, versions, network, publisher), rows + [a], versions, network, publisher)
  {
    var g := AddRow(h, a, versions, network, publisher);
    AddRowFiltered(h, rows, a, versions, network, publisher);
    forall k | k in g.byAction ensures IsMaximum(rows + [a], ActionSections(versions, k), g.byAction[k]) {
      AddRowByAction(h, rows, a, versions, network, publisher, k);
    }
  }

  function HeadersOf(rows: seq<Row>, versions: set<int>, network: string, publisher: string): Headers {
    if rows == [] then Headers(map[], None)
    else AddRow(HeadersOf(rows[..|rows| - 1], versions, network, publisher), rows[|rows| - 1], versions, network, publisher)
  }

  lemma {:induction false} HeadersOfAreHeaders(rows: seq<Row>, versions: set<int>, network: string, publisher: string)
    ensures AreHeaders(HeadersOf(rows, versions, network, publisher), rows, versions, network, publisher)
  {
    if rows != [] {
      var front, a := rows[..|rows| - 1], rows[|rows| - 1];
      HeadersOfAreHeaders(front, versions, network, publisher);
      AddRowIsHeaders(HeadersOf(front, versions, network, publisher), front, a, versions, network, publisher);
      assert rows == front + [a];
    }
  }

  method BundleHeaderBlocks(anchors: seq<Row>, network: string, publisher: string, versions: set<int>)
    returns (headers: Headers)
    ensures AreHeaders(headers, anchors, versions, network, publisher)
  {
    var byAction: map<int, real> := map[];
    var filtered: Option<real> := None;
    for i := 0 to |anchors|
      invariant Headers(byAction, filtered) == HeadersOf(anchors[..i], versions, network, publisher)
    {
      var a := anchors[i];
      assert anchors[..i + 1][..i] == anchors[..i];
      if !Includes(versions, a.version) || !IsBundleSectionRow(a) || !a.snapshotBlock.Fin? { continue; }
      var b := a.snapshotBlock.value;
      if IsInteger(a.actionIndex) {
        var k := a.actionIndex.value.Floor;
        if k !in byAction || b > byAction[k] { byAction := byAction[k := b]; }
      }
      if !IsRewardCandidateRow(a, network, publisher) { continue; }
      if filtered.None? || b > filtered.value { filtered := Some(b); }
    }
    assert anchors[..|anchors|] == anchors;
    HeadersOfAreHeaders(anchors, versions, network, publisher);
    headers := Headers(byAction, filtered);
  }

  // --------------------------------------------------------- the judgement

  function TupleOf(e: Expectation, family: Family): Tuple {
    Tuple(e.minConfirmations, e.network, Lower(e.publisher), e.roundReference, e.snapshotBlock, family,
          RewardFamilyVersions(family, e.legacyDropped))
  }

  predicate IsAttested(a: Row) { Includes(ATTESTED_VERSIONS, a.version) }

  /** a carries its bundle's header block: no section of its action lies above it or, when it names no action,
      no candidate section of the transaction does. */
  ghost predicate TopSection(rows: seq<Row>, a: Row, t: Tuple) {
    IsSection(a, t.versions) &&
    var p := if IsInteger(a.actionIndex) then ActionSections(t.versions, a.actionIndex.value.Floor)
             else CandidateSections(t.versions, t.network, t.publisher);
    forall r :: r in rows && p(r) ==> r.snapshotBlock.value <= a.snapshotBlock.value
  }

  /** Row a proves tuple t: right wire version for the family, admissible, the reward's block and round and, for
      a bundle, the header section of its bundle. */
  ghost predicate Binds(rows: seq<Row>, a: Row, t: Tuple) {
    && Includes(t.versions, a.version)
    && IsRewardCandidateRow(a, t.network, t.publisher)
    && (t.family == Bundle ==> TopSection(rows, a, t))
    && NumEq(a.snapshotBlock, t.snapshot)
    && NumEq(if t.family == Archive then NumberOf(a.batchSeq) else a.snapshotBlock, t.round)
  }

  lemma MaximumUnique(rows: seq<Row>, p: Row -> bool, b: real, a: Row)
    requires IsMaximum(rows, p, b) && a in rows && p(a)
    ensures a.snapshotBlock == Fin(b) <==> (forall r :: r in rows && p(r) ==> r.snapshotBlock.value <= a.snapshotBlock.value)
  {
    var w :| w in rows && p(w) && w.snapshotBlock == Fin(b);
  }

  /** Comparing with the reconstructed header is asking for the top section. */
  lemma HeaderIsTopSection(rows: seq<Row>, a: Row, t: Tuple, h: Headers)
    requires a in rows && AreHeaders(h, rows, t.versions, t.network, t.publisher)
    requires IsSection(a, t.versions) && IsRewardCandidateRow(a, t.network, t.publisher)
    ensures HeaderFor(h, a.actionIndex) == Some(a.snapshotBlock.value) <==> TopSection(rows, a, t)
  {
    if IsInteger(a.actionIndex) {
      var k := a.actionIndex.value.Floor;
      MaximumUnique(rows, ActionSections(t.versions, k), h.byAction[k], a);
    } else {
      assert CandidateSections(t.versions, t.network, t.publisher)(a);
      MaximumUnique(rows, CandidateSections(t.versions, t.network, t.publisher), h.filtered.value, a);
    }
  }

  lemma BindsToTupleMeansBinds(rows: seq<Row>, a: Row, t: Tuple, h: Headers)
    requires a in rows && (t.family == Bundle ==> AreHeaders(h, rows, t.versions, t.network, t.publisher))
    ensures BindsToTuple(a, t, h) <==> Binds(rows, a, t)
  {
    if t.family == Bundle && IsSection(a, t.versions) && IsRewardCandidateRow(a, t.network, t.publisher) {
      HeaderIsTopSection(rows, a, t, h);
    }
  }

  ghost predicate FirstBound(rows: seq<Row>, t: Tuple, i: int) {
    && 0 <= i < |rows| && Binds(rows, rows[i], t)
    && forall j :: 0 <= j < i ==> !Binds(rows, rows[j], t)
  }

  ghost function Judge(rows: seq<Row>, e: Expectation): Verdict {
    match RewardFamily(e.rewardType)
    case None => Rejected
    case Some(family) =>
      var t := TupleOf(e, family);
      if exists i :: FirstBound(rows, t, i) then
        var i :| FirstBound(rows, t, i);
        if NumGe(rows[i].confirmations, t.minConf) then Verified else Unknown
      else if exists a :: a in rows && IsAttested(a) then Rejected
      else Unknown
  }

  lemma JudgeAtFirst(rows: seq<Row>, e: Expectation, family: Family, i: int)
    requires RewardFamily(e.rewardType) == Some(family) && FirstBound(rows, TupleOf(e, family), i)
    ensures Judge(rows, e) == if NumGe(rows[i].confirmations, e.minConfirmations) then Verified else Unknown
  {
    var t := TupleOf(e, family);
    forall j | FirstBound(rows, t, j) ensures j == i {
      assert !(i < j) && !(j < i);
    }
  }

  lemma {:induction false} FirstOf(rows: seq<Row>, t: Tuple, n: nat) returns (i: int)
    requires n < |rows| && Binds(rows, rows[n], t)
    ensures FirstBound(rows, t, i)
  {
    if j :| 0 <= j < n && Binds(rows, rows[j], t) {
      i := FirstOf(rows, t, j);
    } else {
      i := n;
    }
  }

  method JudgeAnchors(anchors: seq<Row>, e: Expectation) returns (verdict: Verdict)
    ensures verdict == Judge(anchors, e)
  {
    var family := RewardFamily(e.rewardType);
    if family.None? { return Rejected; }
    var t := TupleOf(e, family.value);
    var headers := Headers(map[], None);
    if family.value == Bundle {
      headers := BundleHeaderBlocks(anchors, t.network, t.publisher, t.versions);
    }
    var sawAttested := false;
    for i := 0 to |anchors|
      invariant forall j :: 0 <= j < i ==> !Binds(anchors, anchors[j], t)
      invariant sawAttested <==> exists j :: 0 <= j < i && IsAttested(anchors[j])
    {
      if !IsAttested(anchors[i]) { continue; }
      sawAttested := true;
      BindsToTupleMeansBinds(anchors, anchors[i], t, headers);
      if !BindsToTuple(anchors[i], t, headers) { continue; }
      JudgeAtFirst(anchors, e, family.value, i);
      if !NumGe(anchors[i].confirmations, t.minConf) { return Unknown; }
      return Verified;
    }
    verdict := if sawAttested then Rejected else Unknown;
  }

  // ------------------------------------------------------------ properties

  ghost predicate OneConfirmationCount(rows: seq<Row>) {
    forall a, b :: a in rows && b in rows ==> a.confirmations == b.confirmations
  }

  ghost predicate SomeBinds(rows: seq<Row>, t: Tuple) { exists a :: a in rows && Binds(rows, a, t) }

  /** With one confirmation count, the verdict asks only which rows are there: proof and burial, or its absence. */
  lemma JudgeByMembers(rows: seq<Row>, e: Expectation, family: Family, c: Num)
    requires RewardFamily(e.rewardType) == Some(family)
    requires forall a :: a in rows ==> a.confirmations == c
    ensures Judge(rows, e) ==
            if SomeBinds(rows, TupleOf(e, family)) then (if NumGe(c, e.minConfirmations) then Verified else Unknown)
            else if exists a :: a in rows && IsAttested(a) then Rejected else Unknown
  {
    var t := TupleOf(e, family);
    if SomeBinds(rows, t) {
      var a :| a in rows && Binds(rows, a, t);
      var n :| 0 <= n < |rows| && rows[n] == a;
      var i := FirstOf(rows, t, n);
      JudgeAtFirst(rows, e, family, i);
      assert rows[i] in rows;
    }
  }

  lemma BindsByMembers(rows: seq<Row>, other: seq<Row>, a: Row, t: Tuple)
    requires forall r :: r in rows <==> r in other
    ensures Binds(rows, a, t) <==> Binds(other, a, t)
  {
  }

  /** The verdict does not depend on the order in which rows arrive, nor on a row arriving twice. */
  lemma RowOrderImmaterial(rows: seq<Row>, other: seq<Row>, e: Expectation)
    requires forall r :: r in rows <==> r in other
    requires OneConfirmationCount(rows)
    ensures Judge(rows, e) == Judge(other, e)
  {
    var family := RewardFamily(e.rewardType);
    if family.Some? && rows != [] {
      var c := rows[0].confirmations;
      assert rows[0] in rows;
      JudgeByMembers(rows, e, family.value, c);
      JudgeByMembers(other, e, family.value, c);
      forall a ensures Binds(rows, a, TupleOf(e, family.value)) <==> Binds(other, a, TupleOf(e, family.value)) {
        BindsByMembers(rows, other, a, TupleOf(e, family.value));
      }
    } else if family.Some? {
      assert forall k :: 0 <= k < |other| ==> other[k] in rows;
    }
  }

  // ------------------------------------------- node-class-dependent statuses

  lemma {:induction false} SkipDigitsSpelling(digits: string, rest: string)
    requires forall i :: 0 <= i < |digits| ==> '0' <= digits[i] <= '9'
    requires rest != [] && !('0' <= rest[0] <= '9')
    ensures SkipDigits(digits + rest) == rest
  {
    if digits == [] {
      assert digits + rest == rest;
    } else {
      SkipDigitsSpelling(digits[1..], rest);
      assert (digits + rest)[1..] == digits[1..] + rest;
    }
  }

  lemma LowerConcat(a: string, b: string)
    ensures Lower(a + b) == Lower(a) + Lower(b)
  {
  }

  lemma LowerDigits(digits: string)
    requires forall i :: 0 <= i < |digits| ==> '0' <= digits[i] <= '9'
    ensures Lower(digits) == digits
  {
  }

  /** The bundle leg's quorum verdict names the failing section by any decimal, in any letter case. */
  lemma SectionVerdictIsNodeClassDependent(head: string, digits: string, mid: string, tail: string)
    requires Lower(head) == "invalid: section " && Lower(mid) == " insufficient"
    requires digits != [] && forall i :: 0 <= i < |digits| ==> '0' <= digits[i] <= '9'
    ensures NodeClassDependent(head + (digits + (mid + tail)))
  {
    LowerConcat(head, digits + (mid + tail));
    LowerConcat(digits, mid + tail);
    LowerConcat(mid, tail);
    LowerDigits(digits);
    var s := Lower(head + (digits + (mid + tail)));
    var rest := digits + (Lower(mid) + Lower(tail));
    assert s[|Lower(head)|..] == rest;
    SkipDigitsSpelling(digits, Lower(mid) + Lower(tail));
    assert SkipDigits(rest) == Lower(mid) + Lower(tail);
  }

  /** The two statuses are the same, or each is either node-class dependent or does not say invalid. */
  predicate SwappableStatus(x: string, y: string) {
    x == y || ((NodeClassDependent(x) || !SaysInvalid(x)) && (NodeClassDependent(y) || !SaysInvalid(y)))
  }

  /** Two readings of one transaction, by nodes of any class at any height: the rows differ at most by swappable
      statuses and by their depth. */
  ghost predicate SameChainData(rows: seq<Row>, other: seq<Row>) {
    && |rows| == |other|
    && forall i :: 0 <= i < |rows| ==>
         && SwappableStatus(rows[i].status, other[i].status)
         && other[i] == rows[i].(status := other[i].status, confirmations := other[i].confirmations)
  }

  lemma SwapKeepsTop(rows: seq<Row>, other: seq<Row>, i: nat, t: Tuple)
    requires SameChainData(rows, other) && i < |rows| && TopSection(rows, rows[i], t)
    ensures TopSection(other, other[i], t)
  {
    var a, b := rows[i], other[i];
    var p := if IsInteger(a.actionIndex) then ActionSections(t.versions, a.actionIndex.value.Floor)
             else CandidateSections(t.versions, t.network, t.publisher);
    forall r | r in other && p(r) ensures r.snapshotBlock.value <= b.snapshotBlock.value {
      var k :| 0 <= k < |other| && other[k] == r;
      assert rows[k] in rows && p(rows[k]);
    }
  }

  lemma SwapKeepsBinding(rows: seq<Row>, other: seq<Row>, i: nat, t: Tuple)
    requires SameChainData(rows, other) && i < |rows|
    ensures Binds(rows, rows[i], t) <==> Binds(other, other[i], t)
  {
    if TopSection(rows, rows[i], t) { SwapKeepsTop(rows, other, i, t); }
    if TopSection(other, other[i], t) {
      assert SameChainData(other, rows);
      SwapKeepsTop(other, rows, i, t);
    }
  }

  /** Rows that bind at the same positions, with the same attested rows, are judged by the same row. */
  lemma SameBindings(rows: seq<Row>, other: seq<Row>, e: Expectation, family: Family) returns (i: int)
    requires RewardFamily(e.rewardType) == Some(family) && |rows| == |other|
    requires forall k :: 0 <= k < |rows| ==> (Binds(rows, rows[k], TupleOf(e, family)) <==> Binds(other, other[k], TupleOf(e, family)))
    requires forall k :: 0 <= k < |rows| ==> (IsAttested(rows[k]) <==> IsAttested(other[k]))
    ensures -1 <= i < |rows|
    ensures i == -1 ==> Judge(rows, e) == Judge(other, e) != Verified
    ensures i >= 0 ==> Judge(rows, e) == (if NumGe(rows[i].confirmations, e.minConfirmations) then Verified else Unknown)
    ensures i >= 0 ==> Judge(other, e) == (if NumGe(other[i].confirmations, e.minConfirmations) then Verified else Unknown)
  {
    var t := TupleOf(e, family);
    if k :| 0 <= k < |rows| && Binds(rows, rows[k], t) {
      i := FirstOf(rows, t, k);
      assert FirstBound(other, t, i);
      JudgeAtFirst(rows, e, family, i);
      JudgeAtFirst(other, e, family, i);
    } else {
      i := -1;
      assert forall k :: !FirstBound(rows, t, k) && !FirstBound(other, t, k);
      if a :| a in rows && IsAttested(a) {
        var k :| 0 <= k < |rows| && rows[k] == a;
        assert other[k] in other;
      }
      if a :| a in other && IsAttested(a) {
        var k :| 0 <= k < |rows| && other[k] == a;
        assert rows[k] in rows;
      }
    }
  }

  lemma JudgedBySameRow(rows: seq<Row>, other: seq<Row>, e: Expectation, family: Family) returns (i: int)
    requires SameChainData(rows, other) && RewardFamily(e.rewardType) == Some(family)
    ensures -1 <= i < |rows|
    ensures i == -1 ==> Judge(rows, e) == Judge(other, e) != Verified
    ensures i >= 0 ==> Judge(rows, e) == (if NumGe(rows[i].confirmations, e.minConfirmations) then Verified else Unknown)
    ensures i >= 0 ==> Judge(other, e) == (if NumGe(other[i].confirmations, e.minConfirmations) then Verified else Unknown)
  {
    forall k | 0 <= k < |rows|
      ensures Binds(rows, rows[k], TupleOf(e, family)) <==> Binds(other, other[k], TupleOf(e, family))
    {
      SwapKeepsBinding(rows, other, k, TupleOf(e, family));
    }
    i := SameBindings(rows, other, e, family);
  }

  /** Nodes of different classes at one height, stamping different node-class-dependent statuses, reach the same
      verdict. */
  lemma NodeClassImmaterial(rows: seq<Row>, other: seq<Row>, e: Expectation)
    requires SameChainData(rows, other)
    requires forall i :: 0 <= i < |rows| ==> rows[i].confirmations == other[i].confirmations
    ensures Judge(rows, e) == Judge(other, e)
  {
    var family := RewardFamily(e.rewardType);
    if family.Some? { var i := JudgedBySameRow(rows, other, e, family.value); }
  }

  /** Burial never reaches nor leaves a permanent reject, even across node classes. */
  lemma BurialNeverTouchesRejected(rows: seq<Row>, other: seq<Row>, e: Expectation)
    requires SameChainData(rows, other)
    ensures Judge(rows, e) == Rejected <==> Judge(other, e) == Rejected
  {
    var family := RewardFamily(e.rewardType);
    if family.Some? { var i := JudgedBySameRow(rows, other, e, family.value); }
  }

  /** Growing confirmations never lose a proof. */
  lemma BurialKeepsVerified(rows: seq<Row>, other: seq<Row>, e: Expectation)
    requires SameChainData(rows, other) && Judge(rows, e) == Verified
    requires forall i :: 0 <= i < |rows| ==> NumGe(other[i].confirmations, rows[i].confirmations)
    ensures Judge(other, e) == Verified
  {
    var i := JudgedBySameRow(rows, other, e, RewardFamily(e.rewardType).value);
  }

  // --------------------------------------------------------- sibling rows

  /** No added section that a nameless row would be held to lies above the reward's block. */
  ghost predicate NoneAbove(extra: seq<Row>, t: Tuple) {
    forall b :: b in extra && CandidateSections(t.versions, t.network, t.publisher)(b) ==> NumGe(t.snapshot, b.snapshotBlock)
  }

  ghost predicate SomeNamedBinds(rows: seq<Row>, t: Tuple) {
    exists a :: a in rows && Binds(rows, a, t) && IsInteger(a.actionIndex)
  }

  /** Adding rows of other actions leaves a proof standing exactly when the reward is an archive one, or the row is
      named, or no added candidate section lies above it. */
  lemma BindingSurvives(rows: seq<Row>, extra: seq<Row>, all: seq<Row>, a: Row, t: Tuple)
    requires forall r :: r in all <==> r in rows || r in extra
    requires forall r, b :: r in rows && b in extra && IsInteger(r.actionIndex) ==> b.actionIndex != r.actionIndex
    requires a in rows && Binds(rows, a, t)
    ensures Binds(all, a, t) <==> t.family == Archive || IsInteger(a.actionIndex) || NoneAbove(extra, t)
  {
    if t.family == Bundle && !IsInteger(a.actionIndex) {
      var p := CandidateSections(t.versions, t.network, t.publisher);
      assert NoneAbove(extra, t) <==> forall b :: b in extra && p(b) ==> b.snapshotBlock.value <= a.snapshotBlock.value;
    } else if t.family == Bundle {
      var p := ActionSections(t.versions, a.actionIndex.value.Floor);
      forall r | r in all && p(r) ensures r in rows {
        assert r.actionIndex == a.actionIndex;
      }
    }
  }

  lemma BindingWasThere(rows: seq<Row>, extra: seq<Row>, all: seq<Row>, a: Row, t: Tuple)
    requires forall r :: r in all <==> r in rows || r in extra
    requires a in rows && Binds(all, a, t)
    ensures Binds(rows, a, t)
  {
  }

  /** When rows of other actions take a proof away: a verified verdict stays verified if and only if the reward is an
      archive one, or some proving row carries an action index, or no added candidate section lies above the reward's
      block, or an added row proves the reward itself. */
  lemma SiblingsUnproveExactly(rows: seq<Row>, extra: seq<Row>, all: seq<Row>, e: Expectation, family: Family, t: Tuple)
    requires RewardFamily(e.rewardType) == Some(family) && t == TupleOf(e, family)
    requires forall r :: r in all <==> r in rows || r in extra
    requires OneConfirmationCount(all)
    requires forall r, b :: r in rows && b in extra && IsInteger(r.actionIndex) ==> b.actionIndex != r.actionIndex
    requires Judge(rows, e) == Verified
    ensures Judge(all, e) == Verified <==>
            family == Archive || SomeNamedBinds(rows, t) || NoneAbove(extra, t) || exists b :: b in extra && Binds(all, b, t)
  {
    var a := VerifiedHasProof(rows, e, family);
    JudgeByMembers(rows, e, family, a.confirmations);
    JudgeByMembers(all, e, family, a.confirmations);
    forall r | r in rows && Binds(rows, r, t)
      ensures Binds(all, r, t) <==> family == Archive || IsInteger(r.actionIndex) || NoneAbove(extra, t)
    {
      BindingSurvives(rows, extra, all, r, t);
    }
    forall r | r in rows && Binds(all, r, t) ensures Binds(rows, r, t) {
      BindingWasThere(rows, extra, all, r, t);
    }
    assert a in all;
  }

  lemma VerifiedHasProof(rows: seq<Row>, e: Expectation, family: Family) returns (a: Row)
    requires RewardFamily(e.rewardType) == Some(family) && Judge(rows, e) == Verified
    ensures a in rows && Binds(rows, a, TupleOf(e, family))
  {
    var t := TupleOf(e, family);
    var i :| FirstBound(rows, t, i);
    a := rows[i];
  }

  /** So where the proving rows carry action indexes no sibling, named or not, can take a proof away. */
  lemma SiblingsCannotUnprove(rows: seq<Row>, extra: seq<Row>, all: seq<Row>, e: Expectation)
    requires forall r :: r in all <==> r in rows || r in extra
    requires OneConfirmationCount(all)
    requires RewardFamily(e.rewardType) == Some(Bundle) ==> forall r :: r in rows ==> IsInteger(r.actionIndex)
    requires forall r, b :: r in rows && b in extra && IsInteger(r.actionIndex) ==> b.actionIndex != r.actionIndex
    requires Judge(rows, e) == Verified
    ensures Judge(all, e) == Verified
  {
    var family := RewardFamily(e.rewardType).value;
    var a := VerifiedHasProof(rows, e, family);
    SiblingsUnproveExactly(rows, extra, all, e, family, TupleOf(e, family));
  }

  /** A losing input: among rows served without an action index, a sibling at a later block turns a proven reward into
      a permanent reject. */
  lemma NamelessSiblingUnproves(a: Row, b: Row, e: Expectation, t: Tuple)
    requires e == Expectation("anchor_bundle", Fin(6.0), "", "", Fin(5.0), Fin(5.0), false) && t == TupleOf(e, Bundle)
    requires a == Row(Fin(0.0), "", "", "", "", Fin(5.0), Undefined, NaN, Fin(9.0)) && b == a.(snapshotBlock := Fin(6.0))
    ensures Judge([a], e) == Verified && Judge([a, b], e) == Rejected
  {
    assert Binds([a], a, t) && a in [a];
    JudgeByMembers([a], e, Bundle, Fin(9.0));
    assert b in [a, b] && CandidateSections(t.versions, t.network, t.publisher)(b);
    assert !SomeBinds([a, b], t);
    assert IsAttested(b);
    JudgeByMembers([a, b], e, Bundle, Fin(9.0));
  }

  // ------------------------------------------- the verdict from the raw fields

  /** The text begins with the word, in any letter case. */
  predicate Begins(s: string, word: string) { |s| >= |word| && Lower(s[..|word|]) == word }

  predicate IsDigit(c: char) { '0' <= c <= '9' }

  /** "invalid: SECTION ", at least one digit, " insufficient", then anything. */
  ghost predicate NamesSection(s: string) {
    exists k: nat :: k >= 1 && NamesSectionOf(s, k)
  }

  predicate NamesSectionOf(s: string, k: nat) {
    && |s| >= 17 + k && Begins(s, "invalid: section ") && (forall i :: 17 <= i < 17 + k ==> IsDigit(s[i]))
    && Begins(s[17 + k..], " insufficient")
  }

  lemma LowerPrefix(s: string, word: string)
    ensures StartsWith(Lower(s), word) <==> Begins(s, word)
  {
    if |s| >= |word| { assert Lower(s)[..|word|] == Lower(s[..|word|]); }
  }

  lemma {:induction false} SkipDigitsRun(s: string) returns (k: nat)
    ensures k <= |s| && SkipDigits(s) == s[k..] && forall i :: 0 <= i < k ==> IsDigit(s[i])
  {
    if s != [] && IsDigit(s[0]) {
      var j := SkipDigitsRun(s[1..]);
      k := j + 1;
      assert s[1..][j..] == s[k..];
      assert forall i :: 1 <= i < k ==> s[i] == s[1..][i - 1];
    } else {
      k := 0;
    }
  }

  lemma LowerKeepsDigits(s: string, i: nat)
    requires i < |s|
    ensures IsDigit(Lower(s)[i]) <==> IsDigit(s[i])
  {
  }

  lemma LowerSuffix(s: string, i: nat)
    requires i <= |s|
    ensures Lower(s)[i..] == Lower(s[i..])
  {
  }

  lemma SectionNamesIt(status: string)
    requires SectionInsufficient(Lower(status))
    ensures NamesSection(status)
  {
    var s := Lower(status);
    LowerPrefix(status, "invalid: section ");
    var k := SkipDigitsRun(s[17..]);
    forall i | 17 <= i < 17 + k ensures IsDigit(status[i]) {
      assert s[17..][i - 17] == s[i];
      LowerKeepsDigits(status, i);
    }
    LowerSuffix(status, 17 + k);
    LowerPrefix(status[17 + k..], " insufficient");
    assert NamesSectionOf(status, k);
  }

  lemma NamedIsSection(status: string, k: nat)
    requires k >= 1 && NamesSectionOf(status, k)
    ensures SectionInsufficient(Lower(status))
  {
    var s := Lower(status);
    LowerPrefix(status, "invalid: section ");
    LowerPrefix(status[17 + k..], " insufficient");
    var digits, rest := s[17..17 + k], s[17 + k..];
    forall i | 0 <= i < k ensures IsDigit(digits[i]) { LowerKeepsDigits(status, 17 + i); }
    LowerSuffix(status, 17 + k);
    assert " insufficient" <= rest && rest[0] == ' ';
    SkipDigitsSpelling(digits, rest);
    assert s[17..] == digits + rest;
  }

  lemma SectionIsNamed(status: string)
    ensures SectionInsufficient(Lower(status)) <==> NamesSection(status)
  {
    if SectionInsufficient(Lower(status)) { SectionNamesIt(status); }
    if k: nat :| k >= 1 && NamesSectionOf(status, k) { NamedIsSection(status, k); }
  }

  /** Which statuses rule a row out: those that begin with "invalid", save the three verdicts that depend on the node. */
  lemma RulesOutExactly(status: string)
    ensures DeterministicallyInvalid(status) <==>
            && Begins(status, "invalid") && !Begins(status, "invalid: insufficient") && !Begins(status, "invalid_archive")
            && !NamesSection(status)
  {
    LowerPrefix(status, "invalid");
    LowerPrefix(status, "unverified");
    LowerPrefix(status, "invalid: insufficient");
    LowerPrefix(status, "invalid_archive");
    SectionIsNamed(status);
    assert Begins(status, "invalid") ==> Lower(status)[0] == 'i';
    assert Begins(status, "unverified") ==> Lower(status)[0] == 'u';
  }

  /** Not ruled out by its status, on the reward's network and by its publisher, in any letter case. */
  ghost predicate Admissible(a: Row, e: Expectation) {
    && !(Begins(a.status, "invalid") && !Begins(a.status, "invalid: insufficient") && !Begins(a.status, "invalid_archive")
         && !NamesSection(a.status))
    && a.network == e.network && Lower(a.publisher) == Lower(e.publisher)
  }

  predicate IsNumber(n: Num, v: Num) { n == v && !n.NaN? }

  /** An archive head of the reward's block and batch. */
  ghost predicate ProvesArchive(a: Row, e: Expectation) {
    && (a.version == Fin(1.0) || (a.version == Fin(6.0) && !e.legacyDropped))
    && Admissible(a, e)
    && IsNumber(a.snapshotBlock, e.snapshotBlock)
    && match a.batchSeq
       case Undefined => false
       case Null => e.roundReference == Fin(0.0)
       case Given(n) => IsNumber(n, e.roundReference)
  }

  /** A bundle section: for a fold, a row naming a chain and no batch. */
  predicate SectionRow(a: Row, e: Expectation) {
    && (a.version == Fin(0.0) || a.version == Fin(3.0) || (a.version == Fin(7.0) && !e.legacyDropped))
    && (a.version == Fin(3.0) ==> a.chain != "" && !a.batchSeq.Given?)
    && a.snapshotBlock.Fin?
  }

  /** Sections of one bundle: of a's action, or, when a names none, all that could prove the reward. */
  ghost predicate InBundleOf(a: Row, r: Row, e: Expectation) {
    SectionRow(r, e) && if IsInteger(a.actionIndex) then r.actionIndex == a.actionIndex else Admissible(r, e)
  }

  /** A section of the reward's block, which is its round as well, with no section of its bundle above it. */
  ghost predicate ProvesBundle(rows: seq<Row>, a: Row, e: Expectation) {
    && SectionRow(a, e) && Admissible(a, e)
    && a.snapshotBlock == e.snapshotBlock && a.snapshotBlock == e.roundReference
    && forall r :: r in rows && InBundleOf(a, r, e) ==> r.snapshotBlock.value <= a.snapshotBlock.value
  }

  ghost predicate Proves(rows: seq<Row>, a: Row, e: Expectation) {
    if e.rewardType == "anchor_archive" then ProvesArchive(a, e) else ProvesBundle(rows, a, e)
  }

  /** One of the seven wire versions that carry an attestation. */
  predicate Attests(a: Row) {
    || a.version == Fin(0.0) || a.version == Fin(1.0) || a.version == Fin(3.0) || a.version == Fin(4.0)
    || a.version == Fin(5.0) || a.version == Fin(6.0) || a.version == Fin(7.0)
  }

  lemma AdmissibleIsCandidate(a: Row, e: Expectation)
    ensures IsRewardCandidateRow(a, e.network, Lower(e.publisher)) <==> Admissible(a, e)
  {
    RulesOutExactly(a.status);
  }

  lemma VersionOf(n: Num, v: int)
    ensures IsInteger(n) && n.value.Floor == v <==> n == Fin(v as real)
  {
  }

  lemma ArchiveBinds(rows: seq<Row>, a: Row, e: Expectation)
    ensures Binds(rows, a, TupleOf(e, Archive)) <==> ProvesArchive(a, e)
  {
    AdmissibleIsCandidate(a, e);
    VersionOf(a.version, 1);
    VersionOf(a.version, 6);
  }

  lemma SectionRows(a: Row, e: Expectation)
    ensures IsSection(a, TupleOf(e, Bundle).versions) <==> SectionRow(a, e)
  {
    VersionOf(a.version, 0);
    VersionOf(a.version, 3);
    VersionOf(a.version, 7);
  }

  lemma BundleMates(a: Row, r: Row, e: Expectation)
    ensures var t := TupleOf(e, Bundle);
            InBundleOf(a, r, e) <==>
            if IsInteger(a.actionIndex) then ActionSections(t.versions, a.actionIndex.value.Floor)(r)
            else CandidateSections(t.versions, t.network, t.publisher)(r)
  {
    SectionRows(r, e);
    AdmissibleIsCandidate(r, e);
  }

  lemma BundleBinds(rows: seq<Row>, a: Row, e: Expectation)
    ensures Binds(rows, a, TupleOf(e, Bundle)) <==> ProvesBundle(rows, a, e)
  {
    var t := TupleOf(e, Bundle);
    AdmissibleIsCandidate(a, e);
    SectionRows(a, e);
    forall r ensures InBundleOf(a, r, e) <==>
                     if IsInteger(a.actionIndex) then ActionSections(t.versions, a.actionIndex.value.Floor)(r)
                     else CandidateSections(t.versions, t.network, t.publisher)(r)
    {
      BundleMates(a, r, e);
    }
  }

  lemma AttestsIsAttested(a: Row)
    ensures IsAttested(a) <==> Attests(a)
  {
    VersionOf(a.version, 0);
    VersionOf(a.version, 1);
    VersionOf(a.version, 3);
    VersionOf(a.version, 4);
    VersionOf(a.version, 5);
    VersionOf(a.version, 6);
    VersionOf(a.version, 7);
  }

  ghost predicate FirstProof(rows: seq<Row>, e: Expectation, i: int) {
    0 <= i < |rows| && Proves(rows, rows[i], e) && forall j :: 0 <= j < i ==> !Proves(rows, rows[j], e)
  }

  /** The verdict, read off the rows' own fields: verified when the first row that proves the reward is buried deep enough;
      rejected for a reward of no live family, and when some row attests and none proves; unknown otherwise. */
  lemma VerdictExactly(rows: seq<Row>, e: Expectation)
    ensures e.rewardType != "anchor_archive" && e.rewardType != "anchor_bundle" ==> Judge(rows, e) == Rejected
    ensures e.rewardType == "anchor_archive" || e.rewardType == "anchor_bundle" ==>
              && (Judge(rows, e) == Verified <==> exists i :: FirstProof(rows, e, i) && NumGe(rows[i].confirmations, e.minConfirmations))
              && (Judge(rows, e) == Rejected <==> (exists a :: a in rows && Attests(a)) && forall a :: a in rows ==> !Proves(rows, a, e))
  {
    if e.rewardType == "anchor_archive" || e.rewardType == "anchor_bundle" {
      var family := RewardFamily(e.rewardType).value;
      var t := TupleOf(e, family);
      forall a ensures Binds(rows, a, t) <==> Proves(rows, a, e) { ArchiveBinds(rows, a, e); BundleBinds(rows, a, e); }
      forall a ensures IsAttested(a) <==> Attests(a) { AttestsIsAttested(a); }
      forall i ensures FirstBound(rows, t, i) <==> FirstProof(rows, e, i) {}
      FirstDecides(rows, e, family);
    }
  }

  lemma FirstDecides(rows: seq<Row>, e: Expectation, family: Family)
    requires RewardFamily(e.rewardType) == Some(family)
    ensures var t := TupleOf(e, family);
            && (Judge(rows, e) == Verified <==> exists i :: FirstBound(rows, t, i) && NumGe(rows[i].confirmations, e.minConfirmations))
            && (Judge(rows, e) == Rejected <==> (exists a :: a in rows && IsAttested(a)) && forall a :: a in rows ==> !Binds(rows, a, t))
  {
    var t := TupleOf(e, family);
    if SomeBinds(rows, t) {
      var a :| a in rows && Binds(rows, a, t);
      var n :| 0 <= n < |rows| && rows[n] == a;
      var i := FirstOf(rows, t, n);
      JudgeAtFirst(rows, e, family, i);
      forall j | FirstBound(rows, t, j) ensures j == i {
        assert !(i < j) && !(j < i);
      }
    } else {
      assert forall i :: !FirstBound(rows, t, i) by { assert forall i :: 0 <= i < |rows| ==> rows[i] in rows; }
    }
  }

  /** With one confirmation count any proving row will do. */
  lemma ProvedExactly(rows: seq<Row>, e: Expectation, c: Num)
    requires e.rewardType == "anchor_archive" || e.rewardType == "anchor_bundle"
    requires forall a :: a in rows ==> a.confirmations == c
    ensures Judge(rows, e) == Verified <==> NumGe(c, e.minConfirmations) && exists a :: a in rows && Proves(rows, a, e)
  {
    var family := RewardFamily(e.rewardType).value;
    JudgeByMembers(rows, e, family, c);
    forall a ensures Binds(rows, a, TupleOf(e, family)) <==> Proves(rows, a, e) { ArchiveBinds(rows, a, e); BundleBinds(rows, a, e); }
  }
}
