/** The legacy reward pin list and its membership key (src/anchor/legacy_reward_pins.js). */
module LegacyPins {
  import opened Facts
  import opened JsValues
  import opened JsonText

  /** A tuple field; Other is any value that is neither missing nor a string, with what `String(p)` makes of it. */
  datatype Field = Undefined | Null | Str(s: string) | Other(text: string)

  datatype Pin =
    | NotAnObject
    | Tuple(rewardType: Field, roundReference: Field, snapshotBlock: Field, publisher: Field, txid: Field)

  datatype Spelling = Spelling(rewardType: string, roundReference: string, snapshotBlock: string, publisher: string, txid: string)

  predicate Missing(f: Field) { f.Undefined? || f.Null? || f == Str("") }

  function Text(f: Field): string
    requires !Missing(f)
  {
    match f
    case Str(s) => s
    case Other(text) => text
  }

  predicate Complete(pin: Pin) {
    pin.Tuple? && !Missing(pin.rewardType) && !Missing(pin.roundReference) && !Missing(pin.snapshotBlock)
    && !Missing(pin.publisher) && !Missing(pin.txid)
  }

  /** The five fields as text. */
  function SpellingOf(pin: Pin): Spelling
    requires Complete(pin)
  {
    Spelling(Text(pin.rewardType), Text(pin.roundReference), Text(pin.snapshotBlock), Text(pin.publisher), Text(pin.txid))
  }

  /** JSON.stringify of the five strings. */
  function KeyText(k: Spelling): string {
    "[" + (Quote(k.rewardType) + ("," + (Quote(k.roundReference) + ("," + (Quote(k.snapshotBlock) + ("," +
      (Quote(k.publisher) + ("," + (Quote(k.txid) + "]")))))))))
  }

  function TupleKey(pin: Pin): Option<string> {
    if Complete(pin) then Some(KeyText(SpellingOf(pin))) else None
  }

  lemma NextField(s: string, t: string, a: string, b: string)
    requires Quote(s) + ("," + a) == Quote(t) + ("," + b)
    ensures s == t && a == b
  {
    QuoteDecides(s, t, "," + a, "," + b);
    StripPrefix(",", a, b);
  }

  lemma KeyTextInjective(k: Spelling, l: Spelling)
    requires KeyText(k) == KeyText(l)
    ensures k == l
  {
    var k4, l4 := Quote(k.txid) + "]", Quote(l.txid) + "]";
    var k3, l3 := Quote(k.publisher) + ("," + k4), Quote(l.publisher) + ("," + l4);
    var k2, l2 := Quote(k.snapshotBlock) + ("," + k3), Quote(l.snapshotBlock) + ("," + l3);
    var k1, l1 := Quote(k.roundReference) + ("," + k2), Quote(l.roundReference) + ("," + l2);
    StripPrefix("[", Quote(k.rewardType) + ("," + k1), Quote(l.rewardType) + ("," + l1));
    NextField(k.rewardType, l.rewardType, k1, l1);
    NextField(k.roundReference, l.roundReference, k2, l2);
    NextField(k.snapshotBlock, l.snapshotBlock, k3, l3);
    NextField(k.publisher, l.publisher, k4, l4);
    QuoteDecides(k.txid, l.txid, "]", "]");
  }

  /** No two tuples share a key unless their five fields spell alike. */
  lemma TupleKeyInjective(p: Pin, q: Pin)
    requires Complete(p)
    ensures TupleKey(p) == TupleKey(q) <==> Complete(q) && SpellingOf(p) == SpellingOf(q)
  {
    if Complete(q) && TupleKey(p) == TupleKey(q) { KeyTextInjective(SpellingOf(p), SpellingOf(q)); }
  }

  predicate Present(f: Field) { f != Undefined && f != Null && f != Str("") }

  /** Two fields with one text: `String(p)` of a value and the same string count alike. */
  ghost predicate SameText(f: Field, g: Field) {
    && Present(f) && Present(g)
    && exists text :: (f == Str(text) || f == Other(text)) && (g == Str(text) || g == Other(text))
  }

  predicate AllPresent(p: Pin) {
    && p.Tuple? && Present(p.rewardType) && Present(p.roundReference) && Present(p.snapshotBlock)
    && Present(p.publisher) && Present(p.txid)
  }

  ghost predicate SameTuple(p: Pin, q: Pin) {
    && p.Tuple? && q.Tuple?
    && SameText(p.rewardType, q.rewardType) && SameText(p.roundReference, q.roundReference)
    && SameText(p.snapshotBlock, q.snapshotBlock) && SameText(p.publisher, q.publisher) && SameText(p.txid, q.txid)
  }

  lemma SameTextMeans(f: Field, g: Field)
    ensures SameText(f, g) <==> !Missing(f) && !Missing(g) && Text(f) == Text(g)
  {
    if !Missing(f) && !Missing(g) && Text(f) == Text(g) {
      assert (f == Str(Text(f)) || f == Other(Text(f))) && (g == Str(Text(f)) || g == Other(Text(f)));
    }
  }

  /** What counts as one tuple, field by field, and which tuples have a key at all. */
  lemma SpelledAlikeExactly(p: Pin, q: Pin)
    ensures Complete(p) <==> AllPresent(p)
    ensures Complete(p) && Complete(q) && SpellingOf(p) == SpellingOf(q) <==> SameTuple(p, q)
  {
    if p.Tuple? && q.Tuple? {
      SameTextMeans(p.rewardType, q.rewardType);
      SameTextMeans(p.roundReference, q.roundReference);
      SameTextMeans(p.snapshotBlock, q.snapshotBlock);
      SameTextMeans(p.publisher, q.publisher);
      SameTextMeans(p.txid, q.txid);
    }
  }

  /** What the returned closure holds. */
  datatype Pins = Pins(keys: set<string>) {
    function Size(): nat { |keys| }

    predicate IsPinned(pin: Pin) { TupleKey(pin).Some? && TupleKey(pin).value in keys }
  }

  function Spellings(list: seq<Pin>): set<Spelling>
    requires forall p :: p in list ==> Complete(p)
  {
    set p | p in list :: SpellingOf(p)
  }

  /** The keys are the texts of exactly these spellings, one each. */
  ghost predicate KeysOf(keys: set<string>, spelled: set<Spelling>) {
    |keys| == |spelled| && forall k :: KeyText(k) in keys <==> k in spelled
  }

  lemma KeysOfAdd(keys: set<string>, spelled: set<Spelling>, k: Spelling)
    requires KeysOf(keys, spelled)
    ensures KeysOf(keys + {KeyText(k)}, spelled + {k})
  {
    forall l ensures KeyText(l) in keys + {KeyText(k)} <==> l in spelled + {k} {
      if KeyText(l) == KeyText(k) { KeyTextInjective(l, k); }
    }
    assert KeyText(k) in keys <==> k in spelled;
    if k in spelled { assert keys + {KeyText(k)} == keys && spelled + {k} == spelled; }
  }

  lemma SpellingsAdd(list: seq<Pin>, pin: Pin)
    requires (forall p :: p in list ==> Complete(p)) && Complete(pin)
    ensures Spellings(list + [pin]) == Spellings(list) + {SpellingOf(pin)}
  {
    forall k ensures k in Spellings(list + [pin]) <==> k in Spellings(list) + {SpellingOf(pin)} {
      if k in Spellings(list) {
        var p :| p in list && SpellingOf(p) == k;
        assert p in list + [pin];
      }
      assert pin in list + [pin];
    }
  }

  /** The set holds the pinned tuples and nothing else. */
  lemma PinnedIsMembership(keys: set<string>, list: seq<Pin>, q: Pin)
    requires (forall p :: p in list ==> Complete(p)) && KeysOf(keys, Spellings(list))
    ensures Pins(keys).IsPinned(q) <==> exists p :: p in list && Complete(q) && SpellingOf(p) == SpellingOf(q)
  {
    if Complete(q) { assert KeyText(SpellingOf(q)) in keys <==> SpellingOf(q) in Spellings(list); }
  }

  /** None where the source throws: an incomplete pin anywhere in the list. */
  method LoadLegacyRewardPins(list: seq<Pin>) returns (pins: Option<Pins>)
    ensures pins.Some? <==> forall p :: p in list ==> AllPresent(p)
    ensures pins.Some? ==> forall q :: pins.value.IsPinned(q) <==> exists p :: p in list && SameTuple(p, q)
    ensures pins.Some? ==> pins.value.Size() == |Spellings(list)|
  {
    var keys: set<string> := {};
    for i := 0 to |list|
      invariant forall p :: p in list[..i] ==> Complete(p)
      invariant KeysOf(keys, Spellings(list[..i]))
    {
      assert list[..i + 1] == list[..i] + [list[i]];
      var key := TupleKey(list[i]);
      SpelledAlikeExactly(list[i], list[i]);
      if key.None? {
        assert list[i] in list;
        return None;
      }
      KeysOfAdd(keys, Spellings(list[..i]), SpellingOf(list[i]));
      SpellingsAdd(list[..i], list[i]);
      keys := keys + {key.value};
    }
    assert list[..|list|] == list;
    forall p | p in list ensures AllPresent(p) { SpelledAlikeExactly(p, p); }
    forall q ensures Pins(keys).IsPinned(q) <==> exists p :: p in list && SameTuple(p, q) {
      PinnedIsMembership(keys, list, q);
      forall p ensures Complete(p) && Complete(q) && SpellingOf(p) == SpellingOf(q) <==> SameTuple(p, q) { SpelledAlikeExactly(p, q); }
    }
    pins := Some(Pins(keys));
  }
}
