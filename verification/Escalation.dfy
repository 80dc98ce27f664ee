/** The leader ladder and the model fallback of an attestation round (src/attestation/escalation.js).
    Slots, counts and steps are integers; heights are what `Number(height)` makes of them. */
module Escalation {
  import opened Facts
  import opened JsValues

  const MAX_LEADER_ROTATIONS := 3
  const DEFAULT_ROTATION_WINDOW_BLOCKS := 2.0

  /** `Number(x) || 0` */
  function OrZero(n: Num): Num { if n.NaN? then Fin(0.0) else n }

  function BlocksElapsed(latest: Num, request: Num, confirmations: Num): (d: real)
    ensures d >= 0.0
  {
    match (latest, request, OrZero(confirmations))
    case (Fin(l), Fin(r), Fin(c)) => if l - (r + c) > 0.0 then l - (r + c) else 0.0
    case _ => 0.0
  }

  function Window(rotationWindow: Num): (w: real)
    ensures w >= 1.0
  {
    match rotationWindow
    case Fin(w) => if w < 1.0 then DEFAULT_ROTATION_WINDOW_BLOCKS else w
    case _ => DEFAULT_ROTATION_WINDOW_BLOCKS
  }

  function EscalationStep(latest: Num, request: Num, confirmations: Num, rotationWindow: Num): int {
    (BlocksElapsed(latest, request, confirmations) / Window(rotationWindow)).Floor
  }

  /** The height at which a request becomes serviceable: its block plus the confirmation lag, an unreadable lag
      counting as none. None stands for no finite height. */
  function ServiceableFrom(request: Num, confirmations: Num): Option<real> {
    match (request, confirmations)
    case (Fin(r), NaN) => Some(r)
    case (Fin(r), Fin(c)) => Some(r + c)
    case _ => None
  }

  /** The rotation window, two blocks when it is not a finite number of at least one. */
  function RotationBlocks(rotationWindow: Num): real {
    if rotationWindow.Fin? && rotationWindow.value >= 1.0 then rotationWindow.value else 2.0
  }

  lemma FloorAtLeast(a: real, w: real, k: int)
    requires w > 0.0
    ensures k <= (a / w).Floor <==> k as real * w <= a
  {
    var q := a / w;
    ScaledCompare(k as real, q, w);
    assert k as real <= q <==> k <= q.Floor;
  }

  lemma ScaledCompare(a: real, b: real, c: real)
    requires c > 0.0
    ensures a <= b <==> a * c <= b * c
  {
    assert (b - a) * c == b * c - a * c;
    if a <= b { assert (b - a) * c >= 0.0; } else { assert (a - b) * c > 0.0; }
  }

  /** The step counts the whole rotation windows between the serviceable height and the tip. */
  lemma StepExactly(latest: Num, request: Num, confirmations: Num, rotationWindow: Num, k: int)
    ensures EscalationStep(latest, request, confirmations, rotationWindow) == k <==>
              var start, w := ServiceableFrom(request, confirmations), RotationBlocks(rotationWindow);
              if latest.Fin? && start.Some? && latest.value > start.value then k as real * w <= latest.value - start.value < (k + 1) as real * w
              else k == 0
  {
    var elapsed, w := BlocksElapsed(latest, request, confirmations), Window(rotationWindow);
    FloorAtLeast(elapsed, w, k);
    FloorAtLeast(elapsed, w, k + 1);
    assert elapsed == 0.0 ==> elapsed / w == 0.0;
  }

  // ------------------------------------------------------------ the ladder

  /** The slots not proven silent, in ladder order. */
  function LiveSlots(count: nat, silent: set<int>): seq<int> {
    if count == 0 then []
    else LiveSlots(count - 1, silent) + if count - 1 in silent then [] else [count - 1]
  }

  lemma {:induction false} LiveSlotsAre(count: nat, silent: set<int>)
    ensures forall i :: i in LiveSlots(count, silent) <==> 0 <= i < count && i !in silent
    ensures forall j, k :: 0 <= j < k < |LiveSlots(count, silent)| ==> LiveSlots(count, silent)[j] < LiveSlots(count, silent)[k]
  {
    if count > 0 {
      LiveSlotsAre(count - 1, silent);
      var before := LiveSlots(count - 1, silent);
      assert forall j :: 0 <= j < |before| ==> before[j] in before;
    }
  }

  /** The slot seated when the hash-ordered set holds live slots `live`: one rotation per step, at most three. */
  function SeatedSlot(step: int, count: int, silent: set<int>): int {
    if count <= 1 then 0
    else var live := LiveSlots(count, silent);
         if live == [] then count - 1 else live[Min(Min(Max(step, 0), MAX_LEADER_ROTATIONS), |live| - 1)]
  }

  method NextLiveSlot(from: nat, count: int, silent: set<int>) returns (slot: int)
    ensures slot == -1 ==> forall i :: from <= i < count ==> i in silent
    ensures slot != -1 ==> from <= slot < count && slot !in silent && forall i :: from <= i < slot ==> i in silent
  {
    var i := from;
    while i < count
      invariant forall k :: from <= k < i ==> k in silent
    {
      if i !in silent { return i; }
      i := i + 1;
    }
    slot := -1;
  }

  method EffectiveLeaderSlot(step: int, responsibleCount: int, silent: set<int>) returns (slot: int)
    ensures slot == SeatedSlot(step, responsibleCount, silent)
  {
    if responsibleCount <= 1 { return 0; }
    var rotations := Min(Max(step, 0), MAX_LEADER_ROTATIONS);
    ghost var live := LiveSlots(responsibleCount, silent);
    LiveSlotsAre(responsibleCount, silent);
    assert forall j :: 0 <= j < |live| ==> live[j] in live;
    var idx := NextLiveSlot(0, responsibleCount, silent);
    if idx < 0 { return responsibleCount - 1; }
    assert idx in live && idx == live[0];
    var r := 0;
    while r < rotations
      invariant 0 <= r <= rotations && r < |live| && idx == live[r]
    {
      var next := NextLiveSlot(idx + 1, responsibleCount, silent);
      if next < 0 { break; }
      assert next in live;
      idx := next;
      r := r + 1;
    }
    slot := idx;
  }

  /** A silent slot is never seated while a live one exists, and the seated slot is always a member. */
  lemma NeverSilent(step: int, count: int, silent: set<int>, live: int)
    requires 0 <= live < count && live !in silent
    ensures 0 <= SeatedSlot(step, count, silent) < count && SeatedSlot(step, count, silent) !in silent
  {
    LiveSlotsAre(count, silent);
    var slots := LiveSlots(count, silent);
    assert forall j :: 0 <= j < |slots| ==> slots[j] in slots;
    assert live in slots;
  }

  /** The live slots before a slot. */
  ghost function LiveBelow(slot: int, silent: set<int>): set<int> { set i | 0 <= i < slot && i !in silent }

  lemma {:induction false} LiveCount(count: nat, silent: set<int>, k: nat)
    requires k <= |LiveSlots(count, silent)|
    ensures |LiveSlots(count, silent)| == |LiveBelow(count, silent)|
    ensures k < |LiveSlots(count, silent)| ==> |LiveBelow(LiveSlots(count, silent)[k], silent)| == k
  {
    if count == 0 {
      assert LiveBelow(0, silent) == {};
    } else {
      var before := LiveSlots(count - 1, silent);
      LiveCount(count - 1, silent, Min(k, |before|));
      assert LiveBelow(count, silent) == LiveBelow(count - 1, silent) + if count - 1 in silent then {} else {count - 1};
    }
  }

  /** Who is seated, by counting: the live slot with one live slot before it per step, at most three and at most what
      the set holds; the last slot when all are silent. */
  lemma SeatedExactly(step: int, count: int, silent: set<int>, slot: int)
    ensures SeatedSlot(step, count, silent) == slot <==>
              if count <= 1 then slot == 0
              else if LiveBelow(count, silent) == {} then slot == count - 1
              else
                && 0 <= slot < count && slot !in silent
                && var before, live := |LiveBelow(slot, silent)|, |LiveBelow(count, silent)|;
                   before == if step <= 0 then 0 else if step <= 3 && step < live then step else if live > 3 then 3 else live - 1
  {
    if count > 1 {
      var slots := LiveSlots(count, silent);
      LiveSlotsAre(count, silent);
      LiveCount(count, silent, 0);
      assert forall j :: 0 <= j < |slots| ==> slots[j] in slots;
      if slots != [] {
        var k := Min(Min(Max(step, 0), MAX_LEADER_ROTATIONS), |slots| - 1);
        LiveCount(count, silent, k);
        if 0 <= slot < count && slot !in silent {
          var j :| 0 <= j < |slots| && slots[j] == slot;
          LiveCount(count, silent, j);
        }
      }
    }
  }

  /** The ladder only moves down: a later step never seats an earlier slot. */
  lemma LadderMovesForward(step: int, later: int, count: int, silent: set<int>)
    requires step <= later
    ensures SeatedSlot(step, count, silent) <= SeatedSlot(later, count, silent)
  {
    if count > 1 { LiveSlotsAre(count, silent); }
  }

  /** With nothing proven silent the ladder is the plain one: step, capped at three and at the last slot. */
  lemma PlainLadder(step: int, count: int)
    requires count >= 1
    ensures SeatedSlot(step, count, {}) == Min(Min(Max(step, 0), MAX_LEADER_ROTATIONS), count - 1)
  {
    AllLive(count);
  }

  lemma {:induction false} AllLive(count: nat)
    ensures LiveSlots(count, {}) == seq(count, i => i)
  {
    if count > 0 { AllLive(count - 1); }
  }

  // ------------------------------------------------------------ convictions

  /** How many mute leaders in a row are convicted, each joining the silent set, before a speaking slot is seated
      or the polls run out. Each poll may see any step. */
  function Convictions(steps: seq<int>, count: int, mute: set<int>, silent: set<int>): nat {
    if steps == [] then 0
    else var slot := SeatedSlot(steps[0], count, silent);
         if slot in mute then 1 + Convictions(steps[1..], count, mute, silent + {slot}) else 0
  }

  /** The silent set after those convictions. */
  function Convicted(steps: seq<int>, count: int, mute: set<int>, silent: set<int>): set<int> {
    if steps == [] then silent
    else var slot := SeatedSlot(steps[0], count, silent);
         if slot in mute then Convicted(steps[1..], count, mute, silent + {slot}) else silent
  }

  /** While some member speaks, no leader is convicted twice, none that speaks is ever convicted, and a speaking
      slot is seated within one conviction per mute member, whatever the steps. */
  lemma {:induction false} ConvictionsAreBounded(steps: seq<int>, count: int, mute: set<int>, silent: set<int>, speaker: int)
    requires silent <= mute && 0 <= speaker < count && speaker !in mute
    ensures Convicted(steps, count, mute, silent) <= mute
    ensures |Convicted(steps, count, mute, silent)| == |silent| + Convictions(steps, count, mute, silent)
    ensures Convictions(steps, count, mute, silent) <= |mute| - |silent|
    ensures |steps| > |mute| - |silent| ==>
              var n := Convictions(steps, count, mute, silent);
              n < |steps| && SeatedSlot(steps[n], count, Convicted(steps, count, mute, silent)) !in mute
  {
    SubsetSize(silent, mute);
    if steps != [] {
      NeverSilent(steps[0], count, silent, speaker);
      var slot := SeatedSlot(steps[0], count, silent);
      if slot in mute {
        ConvictionsAreBounded(steps[1..], count, mute, silent + {slot}, speaker);
      }
    }
  }

  // --------------------------------------------------------- proven silence

  predicate IsProvenSilent(latest: Option<Num>, since: Option<Num>, rotationWindow: Num) {
    match (latest, since)
    case (Some(Fin(now)), Some(Fin(then_))) => now - then_ >= Window(rotationWindow)
    case _ => false
  }

  /** A leader is convicted exactly when both heights are known and the ladder, started where it was first observed,
      has moved a step. */
  lemma ConvictedByOneStep(latest: Option<Num>, since: Option<Num>, rotationWindow: Num)
    ensures IsProvenSilent(latest, since, rotationWindow) <==>
            latest.Some? && since.Some? && EscalationStep(latest.value, since.value, Fin(0.0), rotationWindow) >= 1
  {
    if latest.Some? && since.Some? {
      var step := EscalationStep(latest.value, since.value, Fin(0.0), rotationWindow);
      var w := Window(rotationWindow);
      StepExactly(latest.value, since.value, Fin(0.0), rotationWindow, step);
      if step >= 1 { ScaledCompare(1.0, step as real, w); } else { ScaledCompare((step + 1) as real, 1.0, w); }
    }
  }

  /** A conviction spans a rotation: by then the ladder itself has moved at least one step since the leader was
      first observed in its slot. */
  lemma ConvictionSpansARotation(latest: Num, since: Num, request: Num, confirmations: Num, window: Num)
    requires IsProvenSilent(Some(latest), Some(since), window)
    requires request.Fin? && OrZero(confirmations).Fin? && since.value >= request.value + OrZero(confirmations).value
    ensures EscalationStep(latest, request, confirmations, window) >= EscalationStep(since, request, confirmations, window) + 1
  {
    var w := Window(window);
    var a, b := BlocksElapsed(since, request, confirmations), BlocksElapsed(latest, request, confirmations);
    var k := (a / w).Floor;
    FloorAtLeast(a, w, k);
    FloorAtLeast(b, w, k + 1);
    assert (k + 1) as real * w == k as real * w + w;
  }

  // --------------------------------------------------------- model fallback

  function ModelIndex(latest: Num, request: Num, confirmations: Num, deadline: Num, modelCount: int): int {
    if modelCount <= 1 then 0
    else
      match (request, OrZero(confirmations), deadline)
      case (Fin(r), Fin(c), Fin(d)) =>
        var span := d - (r + c);
        if span <= 0.0 then 0
        else Max(0, Min((BlocksElapsed(latest, request, confirmations) / (span / modelCount as real)).Floor, modelCount - 1))
      case _ => 0
  }

  lemma QuotientGrows(a: real, b: real, w: real)
    requires a <= b && w > 0.0
    ensures (a / w).Floor <= (b / w).Floor
  {
    assert b / w - a / w == (b - a) / w >= 0.0;
  }

  /** The model slot is always one of the list's, and only moves forward with the chain. */
  lemma ModelIndexMovesForward(latest: real, later: real, request: Num, confirmations: Num, deadline: Num, n: int)
    requires n >= 1 && latest <= later
    ensures 0 <= ModelIndex(Fin(latest), request, confirmations, deadline, n) <= ModelIndex(Fin(later), request, confirmations, deadline, n) < n
  {
    match (request, OrZero(confirmations), deadline)
    case (Fin(r), Fin(c), Fin(d)) =>
      var span := d - (r + c);
      if n > 1 && span > 0.0 {
        assert span / n as real > 0.0;
        QuotientGrows(BlocksElapsed(Fin(latest), request, confirmations), BlocksElapsed(Fin(later), request, confirmations), span / n as real);
      }
    case _ =>
  }

  /** The offset lies in the k-th of n equal segments of the span; the last one has no end. */
  ghost predicate InSegment(elapsed: real, span: real, n: int, k: int) {
    k as real * span <= elapsed * n as real && (k < n - 1 ==> elapsed * n as real < (k + 1) as real * span)
  }

  /** The model in use, by the tip alone: the k-th of n equal segments of the serviceable span, held at the ends; the
      first one when there is no such span. */
  lemma ModelExactly(latest: Num, request: Num, confirmations: Num, deadline: Num, n: int, k: int)
    requires 0 <= k < Max(n, 1)
    ensures ModelIndex(latest, request, confirmations, deadline, n) == k <==>
              var start := ServiceableFrom(request, confirmations);
              if n <= 1 || start.None? || !deadline.Fin? || deadline.value <= start.value || !latest.Fin? || latest.value <= start.value then k == 0
              else InSegment(latest.value - start.value, deadline.value - start.value, n, k)
  {
    var start := ServiceableFrom(request, confirmations);
    if n > 1 && start.Some? && deadline.Fin? && deadline.value > start.value {
      var elapsed, span := BlocksElapsed(latest, request, confirmations), deadline.value - start.value;
      assert ModelIndex(latest, request, confirmations, deadline, n) == SegmentIndex(elapsed, span, n);
      assert latest.Fin? && latest.value > start.value ==> elapsed == latest.value - start.value;
      assert !latest.Fin? || latest.value <= start.value ==> elapsed == 0.0;
      SegmentIndexExactly(elapsed, span, n, k);
    }
  }

  function SegmentIndex(elapsed: real, span: real, n: int): int
    requires n > 1 && span > 0.0
  {
    Max(0, Min((elapsed / (span / n as real)).Floor, n - 1))
  }

  lemma SegmentIndexExactly(elapsed: real, span: real, n: int, k: int)
    requires n > 1 && span > 0.0 && elapsed >= 0.0 && 0 <= k < n
    ensures SegmentIndex(elapsed, span, n) == k <==> InSegment(elapsed, span, n, k)
    ensures elapsed == 0.0 ==> SegmentIndex(elapsed, span, n) == 0
  {
    SegmentAtLeast(elapsed, span, n, k);
    SegmentAtLeast(elapsed, span, n, k + 1);
    SegmentAtLeast(elapsed, span, n, 0);
    SegmentAtLeast(elapsed, span, n, 1);
  }

  lemma SegmentAtLeast(elapsed: real, span: real, n: int, k: int)
    requires n > 0 && span > 0.0
    ensures k <= (elapsed / (span / n as real)).Floor <==> k as real * span <= elapsed * n as real
  {
    var segment, m := span / n as real, n as real;
    assert segment * m == span;
    FloorAtLeast(elapsed, segment, k);
    ScaledCompare(k as real * segment, elapsed, m);
    Regroup(k as real, segment, m, span);
  }

  lemma Regroup(a: real, b: real, c: real, bc: real)
    requires b * c == bc
    ensures a * b * c == a * bc
  {
  }

  function CeilDiv(a: int, b: int): int
    requires b > 0
  {
    (a + b - 1) / b
  }

  lemma CeilDivMeans(a: int, b: int, j: int)
    requires b > 0
    ensures j >= CeilDiv(a, b) <==> j * b >= a
  {
    var q := CeilDiv(a, b);
    var m := (a + b - 1) % b;
    assert b * q == a + b - 1 - m;
    if j >= q { MulLe(q, j, b); } else { MulLe(j, q - 1, b); }
  }

  lemma MulLe(a: int, b: int, k: int)
    requires a <= b && k >= 0
    ensures a * k <= b * k
  {
    assert (b - a) * k >= 0;
  }

  lemma ProductAsReal(a: int, b: int, product: real)
    requires product == a as real * b as real
    ensures product == (a * b) as real
  {
  }

  /** The model in use at offset j into a serviceable span. */
  function ModelAt(request: int, lag: int, span: int, n: int, j: int): int {
    ModelIndex(Fin((request + lag + j) as real), Fin(request as real), Fin(lag as real), Fin((request + lag + span) as real), n)
  }

  lemma ModelAtSegment(request: int, lag: int, span: int, n: int, j: int)
    requires span > 0 && n > 1 && j >= 0
    ensures ModelAt(request, lag, span, n, j) == SegmentIndex(j as real, span as real, n)
  {
    assert BlocksElapsed(Fin((request + lag + j) as real), Fin(request as real), Fin(lag as real)) == j as real;
  }

  lemma InSegmentWhole(j: int, span: int, n: int, k: int)
    ensures InSegment(j as real, span as real, n, k) <==> k * span <= j * n && (k < n - 1 ==> j * n < (k + 1) * span)
  {
    ProductAsReal(k, span, k as real * span as real);
    ProductAsReal(k + 1, span, (k + 1) as real * span as real);
    ProductAsReal(j, n, j as real * n as real);
  }

  /** The slot at offset j into the span is the one whose segment holds j. */
  lemma ModelAtOffset(request: int, lag: int, span: int, n: int, j: int, k: int)
    requires span > 0 && n > 1 && 0 <= j < span && 0 <= k < n
    ensures ModelAt(request, lag, span, n, j) == k <==> k * span <= j * n < (k + 1) * span
  {
    ModelAtSegment(request, lag, span, n, j);
    SegmentIndexExactly(j as real, span as real, n, k);
    InSegmentWhole(j, span, n, k);
    MulLe(j, span - 1, n);
  }

  /** The heights of the serviceable span, as offsets from its start, at which model k is fetched with. */
  ghost function ServedBy(request: int, lag: int, span: nat, n: int, k: int): set<int> {
    set j | 0 <= j < span && ModelAt(request, lag, span, n, j) == k
  }

  lemma {:induction false} IntervalSize(lo: int, hi: int, s: set<int>)
    requires lo <= hi && forall j :: j in s <==> lo <= j < hi
    ensures |s| == hi - lo
    decreases hi - lo
  {
    if lo == hi {
      assert forall j :: j !in s;
    } else {
      IntervalSize(lo, hi - 1, s - {hi - 1});
    }
  }

  lemma DivUnique(x: int, n: int, q: int, r: int, nq: int)
    requires n > 0 && nq == n * q && x == nq + r && 0 <= r < n
    ensures x / n == q
  {
    var p := x / n;
    assert x == n * p + x % n;
    if p < q { MulLe(p + 1, q, n); } else if q < p { MulLe(q + 1, p, n); }
  }

  lemma DivParts(x: int, n: int) returns (q: int, r: int, nq: int)
    requires n > 0
    ensures q == x / n && nq == n * q && x == nq + r && 0 <= r < n
  {
    q, r := x / n, x % n;
    nq := n * q;
  }

  lemma CeilDivStep(a: int, s: nat, n: int)
    requires n > 0
    ensures CeilDiv(a + s, n) - CeilDiv(a, n) == s / n || CeilDiv(a + s, n) - CeilDiv(a, n) == CeilDiv(s, n)
  {
    var q, r, nq := DivParts(a + n - 1, n);
    var u, v, nu := DivParts(s, n);
    if r + v < n {
      DivUnique(a + n - 1 + s, n, q + u, r + v, nq + nu);
    } else {
      DivUnique(a + n - 1 + s, n, q + u + 1, r + v - n, nq + nu + n);
      DivUnique(s + n - 1, n, u + 1, v - 1, nu + n);
    }
  }

  /** Model k is fetched with on one interval of the span. */
  lemma ServedInterval(request: int, lag: int, span: nat, n: int, k: int, j: int)
    requires span > 0 && n > 1 && 0 <= k < n
    ensures j in ServedBy(request, lag, span, n, k) <==> CeilDiv(k * span, n) <= j < CeilDiv((k + 1) * span, n)
  {
    MulLe(k + 1, n, span);
    MulLe(0, k, span);
    CeilDivMeans(k * span, n, j);
    CeilDivMeans((k + 1) * span, n, j);
    if 0 <= j < span {
      ModelAtOffset(request, lag, span, n, j, k);
    } else if j >= span {
      MulLe(span, j, n);
    } else {
      MulLe(j, -1, n);
    }
  }

  /** Every model is served the same number of heights of the span, up to one: floor or ceiling of span / n. */
  lemma FairShare(request: int, lag: int, span: nat, n: int, k: int)
    requires span > 0 && n >= 1 && 0 <= k < n
    ensures |ServedBy(request, lag, span, n, k)| == span / n || |ServedBy(request, lag, span, n, k)| == CeilDiv(span, n)
  {
    if n == 1 {
      IntervalSize(0, span, ServedBy(request, lag, span, n, k));
    } else {
      forall j ensures j in ServedBy(request, lag, span, n, k) <==> CeilDiv(k * span, n) <= j < CeilDiv((k + 1) * span, n) {
        ServedInterval(request, lag, span, n, k, j);
      }
      CeilDivMeans(k * span, n, CeilDiv((k + 1) * span, n));
      CeilDivMeans((k + 1) * span, n, CeilDiv((k + 1) * span, n));
      assert (k + 1) * span == k * span + span;
      IntervalSize(CeilDiv(k * span, n), CeilDiv((k + 1) * span, n), ServedBy(request, lag, span, n, k));
      CeilDivStep(k * span, span, n);
    }
  }
}
