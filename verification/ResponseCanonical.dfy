/** The bytes an attestation response is signed over, in both eras (src/attestation/attest_response_canonical.js). */
module ResponseCanonical {
  import opened Facts
  import opened JsValues

  const MIRROR_FIELD_SEPARATOR := "|"

  predicate IsDigit(c: char) { '0' <= c <= '9' }

  predicate AllDigits(s: string) { forall i :: 0 <= i < |s| ==> IsDigit(s[i]) }

  /** /^(0|[1-9][0-9]*)$/ on the string the canonical would carry. */
  predicate IsCanonicalIntSpelling(s: string) {
    s == "0" || (s != [] && AllDigits(s) && s[0] != '0')
  }

  /** effectiveTime holds `String(effective_time)`, or None for null and undefined. */
  datatype Fields = Fields(requestId: string, providerId: string, responseHash: string, status: string,
                           meta: string, effectiveTime: Option<string>)

  function Legacy(f: Fields): string {
    f.requestId + (f.providerId + (f.responseHash + (f.status + f.meta)))
  }

  /** None where the source throws. */
  function BuildResponseCanonicalRaw(f: Fields): Option<string> {
    match f.effectiveTime
    case None => Some(Legacy(f))
    case Some(et) => if IsCanonicalIntSpelling(et) then Some(Legacy(f) + MIRROR_FIELD_SEPARATOR + et) else None
  }

  // ---------------------------------------------------------- integer spellings

  function Digit(c: char): (d: int)
    requires IsDigit(c)
    ensures 0 <= d <= 9
  {
    c as int - '0' as int
  }

  /** The number a run of digits spells. */
  function ValueOf(s: string): nat
    requires AllDigits(s)
  {
    if s == [] then 0 else 10 * ValueOf(s[..|s| - 1]) + Digit(s[|s| - 1])
  }

  function DigitChar(d: nat): (c: char)
    requires d < 10
    ensures IsDigit(c) && Digit(c) == d && (c == '0' <==> d == 0)
  {
    (d + '0' as int) as char
  }

  function Decimal(n: nat): string {
    (if n < 10 then [] else Decimal(n / 10)) + [DigitChar(n % 10)]
  }

  lemma AppendDigit(s: string, c: char)
    requires AllDigits(s) && IsDigit(c)
    ensures AllDigits(s + [c]) && ValueOf(s + [c]) == 10 * ValueOf(s) + Digit(c)
  {
    assert (s + [c])[..|s|] == s;
  }

  lemma {:induction false} DecimalIsCanonical(n: nat)
    ensures IsCanonicalIntSpelling(Decimal(n)) && ValueOf(Decimal(n)) == n
    ensures n > 0 ==> Decimal(n)[0] != '0'
  {
    if n >= 10 { DecimalIsCanonical(n / 10); }
    AppendDigit(if n < 10 then [] else Decimal(n / 10), DigitChar(n % 10));
  }

  lemma {:induction false} LeadingDigitCounts(s: string)
    requires AllDigits(s) && s != [] && s[0] != '0'
    ensures ValueOf(s) > 0
  {
    if |s| > 1 { LeadingDigitCounts(s[..|s| - 1]); } else { assert s[..0] == []; }
  }

  lemma PrefixCanonical(s: string)
    requires IsCanonicalIntSpelling(s) && |s| > 1
    ensures IsCanonicalIntSpelling(s[..|s| - 1]) && s[..|s| - 1][0] != '0'
  {
  }

  /** One number, one spelling: the signed bytes can be rebuilt from the number alone. */
  lemma {:induction false} SpellingUnique(s: string, t: string)
    requires IsCanonicalIntSpelling(s) && IsCanonicalIntSpelling(t) && ValueOf(s) == ValueOf(t)
    ensures s == t
  {
    var a, b := s[..|s| - 1], t[..|t| - 1];
    assert s == a + [s[|s| - 1]] && t == b + [t[|t| - 1]];
    assert ValueOf(a) == ValueOf(b) && s[|s| - 1] == t[|t| - 1];
    if a != [] {
      PrefixCanonical(s);
      LeadingDigitCounts(a);
    }
    if b != [] {
      PrefixCanonical(t);
      LeadingDigitCounts(b);
    }
    if a != [] && b != [] { SpellingUnique(a, b); }
  }

  lemma SpelledByValue(s: string)
    requires IsCanonicalIntSpelling(s)
    ensures AllDigits(s) && s == Decimal(ValueOf(s))
  {
    DecimalIsCanonical(ValueOf(s));
    SpellingUnique(s, Decimal(ValueOf(s)));
  }

  /** The accepted times are exactly the decimal numerals. */
  lemma NumeralsExactly(s: string)
    ensures IsCanonicalIntSpelling(s) <==> exists n: nat :: s == Decimal(n)
  {
    if IsCanonicalIntSpelling(s) { SpelledByValue(s); }
    if n: nat :| s == Decimal(n) { DecimalIsCanonical(n); }
  }

  /** word stands in text at offset from. */
  predicate StandsAt(word: string, text: string, from: nat) { from + |word| <= |text| && text[from..from + |word|] == word }

  predicate LaidOut(text: string, f: Fields, tail: string) {
    var id, provider, hash, status, meta := |f.requestId|, |f.providerId|, |f.responseHash|, |f.status|, |f.meta|;
    && StandsAt(f.requestId, text, 0) && StandsAt(f.providerId, text, id) && StandsAt(f.responseHash, text, id + provider)
    && StandsAt(f.status, text, id + provider + hash) && StandsAt(f.meta, text, id + provider + hash + status)
    && StandsAt(tail, text, id + provider + hash + status + meta)
    && |text| == id + provider + hash + status + meta + |tail|
  }

  /** The signed bytes, place by place: the five fields in this order with nothing between them, and a time after one
      bar at the end; nothing is signed over a time that is no numeral. */
  lemma CanonicalLayout(f: Fields)
    ensures BuildResponseCanonicalRaw(f).None? <==> f.effectiveTime.Some? && forall n: nat :: f.effectiveTime.value != Decimal(n)
    ensures BuildResponseCanonicalRaw(f).Some? ==>
              LaidOut(BuildResponseCanonicalRaw(f).value, f, if f.effectiveTime.Some? then "|" + f.effectiveTime.value else "")
  {
    if f.effectiveTime.Some? { NumeralsExactly(f.effectiveTime.value); }
    if BuildResponseCanonicalRaw(f).Some? {
      var tail := if f.effectiveTime.Some? then "|" + f.effectiveTime.value else "";
      assert BuildResponseCanonicalRaw(f).value == Legacy(f) + tail;
      LegacyThen(f, tail);
      LayoutOf(BuildResponseCanonicalRaw(f).value, f, tail);
    }
  }

  lemma LayoutOf(text: string, f: Fields, tail: string)
    requires text == f.requestId + (f.providerId + (f.responseHash + (f.status + (f.meta + tail))))
    ensures LaidOut(text, f, tail)
  {
    var r4 := f.meta + tail;
    var r3 := f.status + r4;
    var r2 := f.responseHash + r3;
    var r1 := f.providerId + r2;
    var i1, i2, i3 := |f.requestId|, |f.requestId| + |f.providerId|, |f.requestId| + |f.providerId| + |f.responseHash|;
    assert text[0..] == text;
    NextWord(text, 0, f.requestId, r1);
    NextWord(text, i1, f.providerId, r2);
    NextWord(text, i2, f.responseHash, r3);
    NextWord(text, i3, f.status, r4);
    NextWord(text, i3 + |f.status|, f.meta, tail);
  }

  lemma NextWord(text: string, from: nat, word: string, rest: string)
    requires from <= |text| && text[from..] == word + rest
    ensures StandsAt(word, text, from) && text[from + |word|..] == rest
  {
    assert text[from..from + |word|] == text[from..][..|word|] && text[from + |word|..] == text[from..][|word|..];
  }

  // ---------------------------------------------------------------- splitting

  /** No word of the vocabulary begins another. */
  ghost predicate PrefixFree(words: set<string>) {
    forall x, y :: x in words && y in words && x <= y ==> x == y
  }

  lemma SplitWord(words: set<string>, x: string, y: string, a: string, b: string)
    requires PrefixFree(words) && x in words && y in words && x + a == y + b
    ensures x == y && a == b
  {
    assert x == (x + a)[..|x|] && y == (y + b)[..|y|];
    assert |x| <= |y| ==> x <= y;
    assert |y| <= |x| ==> y <= x;
    SplitFixed(x, y, a, b);
  }

  lemma SplitFixed(x: string, y: string, a: string, b: string)
    requires |x| == |y| && x + a == y + b
    ensures x == y && a == b
  {
    assert x == (x + a)[..|x|] && y == (y + b)[..|y|];
    assert a == (x + a)[|x|..] && b == (y + b)[|y|..];
  }

  /** The last separator is where a tail that holds none was attached. */
  lemma SplitTail(a: string, b: string, c: string, d: string)
    requires a + "|" + b == c + "|" + d && '|' !in b && '|' !in d
    ensures a == c && b == d
  {
    var s := a + "|" + b;
    assert s[|a|] == '|' && s[|c|] == '|';
    assert forall k :: |a| < k < |s| ==> s[k] == b[k - |a| - 1];
    assert forall k :: |c| < k < |s| ==> s[k] == d[k - |c| - 1];
    assert a + ("|" + b) == s == c + ("|" + d);
    SplitFixed(a, c, "|" + b, "|" + d);
    assert b == ("|" + b)[1..] && d == ("|" + d)[1..];
  }

  // -------------------------------------------------------------- injectivity

  /** What the platform guarantees of the fields it signs. */
  ghost predicate WellFormed(f: Fields, providers: set<string>, statuses: set<string>, mirrorEra: string -> bool) {
    && |f.requestId| == 64 && |f.responseHash| == 64
    && f.providerId in providers && f.status in statuses
    && f.effectiveTime.Some? == mirrorEra(f.requestId)
  }

  lemma LegacyThen(f: Fields, x: string)
    ensures Legacy(f) + x == f.requestId + (f.providerId + (f.responseHash + (f.status + (f.meta + x))))
  {
    Regroup(f.requestId, f.providerId + (f.responseHash + (f.status + f.meta)), x);
    Regroup(f.providerId, f.responseHash + (f.status + f.meta), x);
    Regroup(f.responseHash, f.status + f.meta, x);
    Regroup(f.status, f.meta, x);
  }

  lemma LegacyHead(f: Fields, g: Fields, providers: set<string>, statuses: set<string>, tail: string, other: string)
    requires PrefixFree(providers) && PrefixFree(statuses)
    requires |f.requestId| == |g.requestId| && |f.responseHash| == |g.responseHash|
    requires f.providerId in providers && g.providerId in providers && f.status in statuses && g.status in statuses
    requires Legacy(f) + tail == Legacy(g) + other
    ensures f.requestId == g.requestId && f.providerId == g.providerId && f.responseHash == g.responseHash && f.status == g.status
    ensures f.meta + tail == g.meta + other
  {
    var fs, gs := f.status + (f.meta + tail), g.status + (g.meta + other);
    LegacyThen(f, tail);
    LegacyThen(g, other);
    SplitFixed(f.requestId, g.requestId, f.providerId + (f.responseHash + fs), g.providerId + (g.responseHash + gs));
    SplitWord(providers, f.providerId, g.providerId, f.responseHash + fs, g.responseHash + gs);
    SplitFixed(f.responseHash, g.responseHash, fs, gs);
    SplitWord(statuses, f.status, g.status, f.meta + tail, g.meta + other);
  }

  /** One reading: two responses the platform could sign share their bytes only when every field is the same. */
  lemma CanonicalInjective(f: Fields, g: Fields, providers: set<string>, statuses: set<string>, mirrorEra: string -> bool)
    requires PrefixFree(providers) && PrefixFree(statuses)
    requires WellFormed(f, providers, statuses, mirrorEra) && WellFormed(g, providers, statuses, mirrorEra)
    requires BuildResponseCanonicalRaw(f).Some? && BuildResponseCanonicalRaw(f) == BuildResponseCanonicalRaw(g)
    ensures f == g
  {
    var tail := if f.effectiveTime.Some? then "|" + f.effectiveTime.value else "";
    var other := if g.effectiveTime.Some? then "|" + g.effectiveTime.value else "";
    assert BuildResponseCanonicalRaw(f).value == Legacy(f) + tail;
    assert BuildResponseCanonicalRaw(g).value == Legacy(g) + other;
    LegacyHead(f, g, providers, statuses, tail, other);
    if mirrorEra(f.requestId) {
      var s, t := f.effectiveTime.value, g.effectiveTime.value;
      assert f.meta + tail == f.meta + "|" + s && g.meta + other == g.meta + "|" + t;
      SplitTail(f.meta, s, g.meta, t);
    } else {
      assert f.meta + tail == f.meta && g.meta + other == g.meta;
    }
  }

  /** The era assumption is not decoration: one legacy response and one mirror-era response, alike in every
      vocabulary, share their bytes whenever the legacy one's meta spells the other's time. */
  lemma ErasMustNotMix(f: Fields, et: string)
    requires IsCanonicalIntSpelling(et) && f.effectiveTime == Some(et)
    ensures var g := f.(meta := f.meta + "|" + et, effectiveTime := None);
            BuildResponseCanonicalRaw(f).Some? && BuildResponseCanonicalRaw(f) == BuildResponseCanonicalRaw(g) && f != g
  {
    assert Legacy(f) + "|" + et == Legacy(f.(meta := f.meta + "|" + et, effectiveTime := None));
  }
}
